/** Reading blocks through the block cache. */
module CachedReads {
  import opened Bytes
  import opened Tables
  import Caches

  // --------------------------------------------------------------- cache keys

  function Digit(d: nat): (c: char)
    requires d < 10
    ensures c != '|'
  {
    ('0' as int + d) as char
  }

  function Digits(n: nat): (s: string)
    ensures |s| >= 1 && '|' !in s
  {
    if n < 10 then [Digit(n)] else Digits(n / 10) + [Digit(n % 10)]
  }

  /** Path, a bar, and the block's offset in decimal. */
  function CacheKey(path: string, offset: nat): string { path + "|" + Digits(offset) }

  lemma {:induction false} DigitsInjective(a: nat, b: nat)
    requires Digits(a) == Digits(b)
    ensures a == b
  {
    var s, t := Digits(a), Digits(b);
    assert s[|s| - 1] == Digit(a % 10) && t[|t| - 1] == Digit(b % 10);
    if a >= 10 && b >= 10 {
      assert s[..|s| - 1] == Digits(a / 10) && t[..|t| - 1] == Digits(b / 10);
      DigitsInjective(a / 10, b / 10);
    }
  }

  /** The last bar is where the offset starts, whatever the path holds. */
  lemma CacheKeyInjective(p: string, a: nat, q: string, b: nat)
    requires CacheKey(p, a) == CacheKey(q, b)
    ensures p == q && a == b
  {
    hide Digits;
    var k, x, y := CacheKey(p, a), Digits(a), Digits(b);
    assert k[|p|] == '|' && k[|q|] == '|' && |k| == |p| + 1 + |x| == |q| + 1 + |y|;
    assert p == k[..|p|] && q == k[..|q|];
    assert x == k[|p| + 1..] && y == k[|q| + 1..];
    DigitsInjective(a, b);
  }

  // ------------------------------------------------------------ cached blocks

  /** A block some reader may ask for. */
  datatype Block = Block(path: string, handle: BlockHandle)

  /** In one file, no two blocks start at the same offset. */
  ghost predicate OnePerOffset(blocks: set<Block>) {
    forall a, b :: a in blocks && b in blocks && a.path == b.path && a.handle.offset == b.handle.offset ==> a == b
  }

  ghost predicate Holds(c: Codec, files: map<string, bytes>, b: Block, p: Caches.Pair) {
    && b.path in files && p.key == CacheKey(b.path, b.handle.offset)
    && ReadBlock(c, files[b.path], b.handle) == Content(p.value)
  }

  /** Whatever is cached is what its file holds. */
  ghost predicate Faithful(c: Codec, files: map<string, bytes>, blocks: set<Block>, held: seq<Caches.Pair>) {
    forall p :: p in held ==> exists b :: b in blocks && Holds(c, files, b, p)
  }

  class Reader {
    const codec: Codec
    const path: string
    const file: bytes
    const cache: Caches.LRUCache?

    constructor (codec: Codec, path: string, file: bytes, cache: Caches.LRUCache?)
      ensures this.codec == codec && this.path == path && this.file == file && this.cache == cache
    {
      this.codec, this.path, this.file, this.cache := codec, path, file, cache;
    }

    /** With a cache or without, the same result: a hit returns what the file
        holds, and only blocks that read well are cached. */
    method ReadBlock(h: BlockHandle, ghost files: map<string, bytes>, ghost blocks: set<Block>) returns (r: ReadResult)
      requires path in files && files[path] == file && OnePerOffset(blocks) && Block(path, h) in blocks
      requires cache != null ==> cache.Valid() && Faithful(codec, files, blocks, cache.held)
      modifies cache, if cache == null then {} else set e | e in cache.list
      ensures r == Tables.ReadBlock(codec, file, h)
      ensures cache != null ==> cache.Valid() && Faithful(codec, files, blocks, cache.held)
    {
      var cacheKey := CacheKey(path, h.offset);
      if cache != null {
        ghost var was := cache.held;
        TouchKeeps(was, cacheKey);
        var data := cache.Get(cacheKey);
        if data.Some? {
          HitReads(codec, files, blocks, was, path, h, data.value);
          return Content(data.value);
        }
      }
      r := Tables.ReadBlock(codec, file, h);
      if cache != null && r.Content? {
        PutKeeps(cache.held, cacheKey, r.content, cache.capacity);
        assert Holds(codec, files, Block(path, h), Caches.Pair(cacheKey, r.content));
        cache.Put(cacheKey, r.content);
      }
    }
  }

  lemma HitReads(c: Codec, files: map<string, bytes>, blocks: set<Block>, held: seq<Caches.Pair>, path: string,
                 h: BlockHandle, v: bytes)
    requires path in files && OnePerOffset(blocks) && Block(path, h) in blocks && Faithful(c, files, blocks, held)
    requires Caches.Pair(CacheKey(path, h.offset), v) in held
    ensures ReadBlock(c, files[path], h) == Content(v)
  {
    var p := Caches.Pair(CacheKey(path, h.offset), v);
    var b :| b in blocks && Holds(c, files, b, p);
    CacheKeyInjective(b.path, b.handle.offset, path, h.offset);
  }

  lemma TouchKeeps(held: seq<Caches.Pair>, k: string)
    requires Caches.DistinctKeys(held)
    ensures forall p :: p in Caches.Touch(held, k) <==> p in held
  {
    Caches.TouchMembers(held, k);
  }

  lemma PutKeeps(held: seq<Caches.Pair>, k: string, v: bytes, capacity: int)
    requires Caches.DistinctKeys(held)
    ensures forall p :: p in Caches.Fit([Caches.Pair(k, v)] + Caches.Drop(held, k), capacity) ==> p == Caches.Pair(k, v) || p in held
  {
    Caches.PutMembers(held, k, v, capacity);
  }
}
