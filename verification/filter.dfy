/** The Bloom filter of a table: a bit vector and, in its last byte, the number
    of probes. The hash is any function to 32 bits. */
module Filters {
  import opened Bytes

  type uint32 = x: int | 0 <= x < 0x1_0000_0000

  const TwoTo32: nat := 0x1_0000_0000

  /** (h >> 17) | (h << 15) on 32 bits: the two shifted parts share no bit. */
  function Delta(h: uint32): uint32 {
    h / 0x2_0000 + (h % 0x2_0000) * 0x8000
  }

  /** The state after i wrapping additions of the step. */
  function ProbeHash(h: uint32, i: nat): uint32 {
    if i == 0 then h else (ProbeHash(h, i - 1) + Delta(h)) % TwoTo32
  }

  function Probe(h: uint32, i: nat, bits: nat): (pos: nat)
    requires bits > 0
    ensures pos < bits
  {
    ProbeHash(h, i) % bits
  }

  function Mask(i: nat): bv8
    requires i < 8
  {
    (1 as bv8) << i
  }

  predicate BitSet(filter: seq<bv8>, pos: nat) {
    pos / 8 < |filter| && filter[pos / 8] & Mask(pos % 8) != 0
  }

  lemma MaskBits(b: bv8, i: nat, j: nat)
    requires i < 8 && j < 8
    ensures (b | Mask(i)) & Mask(i) != 0
    ensures i != j ==> ((b | Mask(i)) & Mask(j) != 0 <==> b & Mask(j) != 0)
    ensures (0 as bv8) & Mask(i) == 0
  {
    MasksDisjoint(i, j);
  }

  lemma MasksDisjoint(i: nat, j: nat)
    requires i < 8 && j < 8
    ensures Mask(i) in {1, 2, 4, 8, 16, 32, 64, 128}
    ensures Mask(i) == Mask(j) <==> i == j
  {
    assert Mask(0) == 1 && Mask(1) == 2 && Mask(2) == 4 && Mask(3) == 8;
    assert Mask(4) == 16 && Mask(5) == 32 && Mask(6) == 64 && Mask(7) == 128;
  }

  /** Setting one bit changes no other. */
  lemma SetBit(filter: seq<bv8>, pos: nat, other: nat)
    requires pos / 8 < |filter|
    ensures var after := filter[pos / 8 := filter[pos / 8] | Mask(pos % 8)];
            BitSet(after, other) <==> other == pos || BitSet(filter, other)
  {
    MaskBits(filter[pos / 8], pos % 8, other % 8);
    SamePosition(pos, other);
    hide Mask;
  }

  lemma SamePosition(pos: nat, other: nat)
    ensures pos == other <==> pos / 8 == other / 8 && pos % 8 == other % 8
  {
  }

  /** What a filter of this many bits says yes to. */
  ghost predicate AllProbesSet(filter: seq<bv8>, h: uint32, k: nat, bits: nat)
    requires bits > 0
  {
    forall i :: 0 <= i < k ==> BitSet(filter, Probe(h, i, bits))
  }

  ghost predicate Matches(filter: seq<bv8>, h: uint32) {
    && |filter| >= 2
    && var k := filter[|filter| - 1] as nat;
       k > 30 || AllProbesSet(filter[..|filter| - 1], h, k, (|filter| - 1) * 8)
  }

  /** Some key, at some probe, reaches this position. */
  ghost predicate Reached(keys: seq<bytes>, hash: bytes -> uint32, k: nat, bits: nat, pos: nat)
    requires bits > 0
  {
    exists key, i :: key in keys && 0 <= i < k && Probe(hash(key), i, bits) == pos
  }

  /** The bit vector is the set of positions some key reaches. */
  ghost predicate Exact(vector: seq<bv8>, bits: nat, keys: seq<bytes>, hash: bytes -> uint32, k: nat)
    requires bits > 0
  {
    forall pos: nat {:trigger BitSet(vector, pos)} :: pos < bits ==>
      (BitSet(vector, pos) <==> Reached(keys, hash, k, bits, pos))
  }

  /** The bit vector is an earlier one and the first n probes of h. */
  ghost predicate Extended(vector: seq<bv8>, bits: nat, was: seq<bv8>, h: uint32, n: nat)
    requires bits > 0
  {
    forall pos: nat {:trigger BitSet(vector, pos)} :: pos < bits ==>
      (BitSet(vector, pos) <==> BitSet(was, pos) || exists i :: 0 <= i < n && Probe(h, i, bits) == pos)
  }

  function ProbeCount(bitsPerKey: int): (k: nat)
    ensures 1 <= k <= 30
  {
    var k := (bitsPerKey as real * 0.69).Floor;
    if k < 1 then 1 else if k > 30 then 30 else k
  }

  function ByteCount(n: nat, bitsPerKey: int): (bytes: nat)
    ensures bytes >= 8
  {
    var bits := n * bitsPerKey;
    ((if bits < 64 then 64 else bits) + 7) / 8
  }

  class BloomFilter {
    const bitsPerKey: int
    const hash: bytes -> uint32

    constructor (bitsPerKey: int, hash: bytes -> uint32)
      ensures this.bitsPerKey == bitsPerKey && this.hash == hash
    {
      this.bitsPerKey, this.hash := bitsPerKey, hash;
    }

    /** The bits set are exactly those some key's probes reach. */
    method CreateFilter(keys: seq<bytes>) returns (filter: array<bv8>)
      requires ByteCount(|keys|, bitsPerKey) * 8 < TwoTo32
      ensures fresh(filter) && filter.Length == ByteCount(|keys|, bitsPerKey) + 1
      ensures filter[filter.Length - 1] as nat == ProbeCount(bitsPerKey)
      ensures Exact(filter[..filter.Length - 1], (filter.Length - 1) * 8, keys, hash, ProbeCount(bitsPerKey))
    {
      hide Probe, ProbeHash, Mask, BitSet, Reached, Exact, Extended, ProbeCount, ByteCount;
      var bytes := ByteCount(|keys|, bitsPerKey);
      var bits := bytes * 8;
      var k := ProbeCount(bitsPerKey);
      filter := new bv8[bytes + 1](_ => 0);
      filter[bytes] := k as bv8;
      ByteOf(k);
      NothingSet(filter[..bytes], bits, hash, k);
      for n := 0 to |keys|
        invariant filter[bytes] == k as bv8
        invariant Exact(filter[..bytes], bits, keys[..n], hash, k)
      {
        ghost var was := filter[..bytes];
        AddKey(filter, bytes, hash(keys[n]), k);
        OneMoreKey(filter[..bytes], was, bits, keys, n, hash, k);
      }
      assert keys[..|keys|] == keys;
    }

    static lemma ByteOf(k: nat)
      requires k <= 30
      ensures (k as bv8) as nat == k
    {
    }

    static lemma NothingSet(vector: seq<bv8>, bits: nat, hash: bytes -> uint32, k: nat)
      requires 0 < bits == |vector| * 8 && forall i :: 0 <= i < |vector| ==> vector[i] == 0
      ensures Exact(vector, bits, [], hash, k)
    {
      hide Probe, Mask;
      forall pos: nat | pos < bits ensures !BitSet(vector, pos) { MaskBits(0, pos % 8, 0); }
    }

    static lemma OneMoreKey(vector: seq<bv8>, was: seq<bv8>, bits: nat, keys: seq<bytes>, n: nat,
                            hash: bytes -> uint32, k: nat)
      requires bits > 0 && n < |keys| && Exact(was, bits, keys[..n], hash, k)
      requires Extended(vector, bits, was, hash(keys[n]), k)
      ensures Exact(vector, bits, keys[..n + 1], hash, k)
    {
      hide Probe, Mask, Reached, BitSet;
      forall pos: nat | pos < bits ensures BitSet(vector, pos) <==> Reached(keys[..n + 1], hash, k, bits, pos) {
        ReachedMore(keys, n, hash, k, bits, pos);
        assert BitSet(was, pos) <==> Reached(keys[..n], hash, k, bits, pos);
      }
    }

    static method AddKey(filter: array<bv8>, bytes: nat, h0: uint32, k: nat)
      requires bytes > 0 && filter.Length == bytes + 1
      modifies filter
      ensures filter[bytes] == old(filter[bytes])
      ensures Extended(filter[..bytes], bytes * 8, old(filter[..bytes]), h0, k)
    {
      var h := h0;
      var delta := Delta(h);
      ghost var was := filter[..bytes];
      for i := 0 to k
        invariant h == ProbeHash(h0, i) && filter[bytes] == old(filter[bytes])
        invariant Extended(filter[..bytes], bytes * 8, was, h0, i)
      {
        var bitPos := h % (bytes * 8);
        assert bitPos == Probe(h0, i, bytes * 8);
        ghost var before := filter[..bytes];
        SetAt(filter, bytes, bitPos);
        ExtendedMore(filter[..bytes], before, was, bytes * 8, h0, i);
        h := (h + delta) % TwoTo32;
      }
    }

    static method SetAt(filter: array<bv8>, bytes: nat, bitPos: nat)
      requires filter.Length == bytes + 1 && bitPos < bytes * 8
      modifies filter
      ensures filter[bytes] == old(filter[bytes])
      ensures forall pos: nat {:trigger BitSet(filter[..bytes], pos)} :: pos < bytes * 8 ==>
                (BitSet(filter[..bytes], pos) <==> pos == bitPos || BitSet(old(filter[..bytes]), pos))
    {
      ghost var was := filter[..bytes];
      filter[bitPos / 8] := filter[bitPos / 8] | Mask(bitPos % 8);
      assert filter[..bytes] == was[bitPos / 8 := was[bitPos / 8] | Mask(bitPos % 8)];
      forall pos: nat | pos < bytes * 8 ensures BitSet(filter[..bytes], pos) <==> pos == bitPos || BitSet(was, pos) {
        SetBit(was, bitPos, pos);
      }
    }

    /** The bit is tested in the array as a whole, count byte and all. */
    static lemma TestsBit(filter: seq<bv8>, bitPos: nat)
      requires |filter| >= 2 && bitPos < (|filter| - 1) * 8
      ensures BitSet(filter[..|filter| - 1], bitPos) <==> filter[bitPos / 8] & Mask(bitPos % 8) != 0
    {
      hide Mask;
      assert filter[..|filter| - 1][bitPos / 8] == filter[bitPos / 8];
    }

    method KeyMayMatch(key: bytes, filter: seq<bv8>) returns (may: bool)
      requires |filter| * 8 <= TwoTo32
      ensures may <==> Matches(filter, hash(key))
    {
      var n := |filter|;
      if n < 2 { return false; }
      var bits := (n - 1) * 8;
      var k := filter[n - 1] as nat;
      if k > 30 { return true; }
      var h := hash(key);
      var delta := Delta(h);
      hide BitSet, Mask, Probe, Delta;
      for i := 0 to k
        invariant h == ProbeHash(hash(key), i)
        invariant forall j :: 0 <= j < i ==> BitSet(filter[..n - 1], Probe(hash(key), j, bits))
      {
        var bitPos := h % bits;
        ProbeIs(hash(key), i, bits);
        TestsBit(filter, bitPos);
        if filter[bitPos / 8] & Mask(bitPos % 8) == 0 {
          return false;
        }
        h := (h + delta) % TwoTo32;
      }
      return true;
    }
  }

  lemma ProbeIs(h: uint32, i: nat, bits: nat)
    requires bits > 0
    ensures Probe(h, i, bits) == ProbeHash(h, i) % bits
  {
  }

  lemma ExtendedMore(now: seq<bv8>, before: seq<bv8>, was: seq<bv8>, bits: nat, h: uint32, n: nat)
    requires bits > 0 && Extended(before, bits, was, h, n)
    requires forall pos: nat {:trigger BitSet(now, pos)} :: pos < bits ==>
               (BitSet(now, pos) <==> pos == Probe(h, n, bits) || BitSet(before, pos))
    ensures Extended(now, bits, was, h, n + 1)
  {
    forall pos: nat | pos < bits
      ensures BitSet(now, pos) <==> BitSet(was, pos) || exists i :: 0 <= i < n + 1 && Probe(h, i, bits) == pos
    {
      assert BitSet(before, pos) <==> BitSet(was, pos) || exists i :: 0 <= i < n && Probe(h, i, bits) == pos;
    }
  }

  lemma ReachedMore(keys: seq<bytes>, n: nat, hash: bytes -> uint32, k: nat, bits: nat, pos: nat)
    requires n < |keys| && bits > 0
    ensures Reached(keys[..n + 1], hash, k, bits, pos) <==>
            Reached(keys[..n], hash, k, bits, pos) || exists i :: 0 <= i < k && Probe(hash(keys[n]), i, bits) == pos
  {
    assert keys[..n + 1] == keys[..n] + [keys[n]];
    if Reached(keys[..n + 1], hash, k, bits, pos) {
      var key, i :| key in keys[..n + 1] && 0 <= i < k && Probe(hash(key), i, bits) == pos;
      assert key in keys[..n] || key == keys[n];
    }
    if Reached(keys[..n], hash, k, bits, pos) {
      var key, i :| key in keys[..n] && 0 <= i < k && Probe(hash(key), i, bits) == pos;
      assert key in keys[..n + 1];
    }
    if i :| 0 <= i < k && Probe(hash(keys[n]), i, bits) == pos {
      assert keys[n] in keys[..n + 1];
    }
  }

  /** No false negatives: whatever CreateFilter returns for keys, it matches
      each of them. */
  lemma NoFalseNegatives(f: BloomFilter, keys: seq<bytes>, filter: seq<bv8>, key: bytes)
    requires |filter| == ByteCount(|keys|, f.bitsPerKey) + 1
    requires filter[|filter| - 1] as nat == ProbeCount(f.bitsPerKey)
    requires Exact(filter[..|filter| - 1], (|filter| - 1) * 8, keys, f.hash, ProbeCount(f.bitsPerKey))
    requires key in keys
    ensures Matches(filter, f.hash(key))
  {
    var k, bits := ProbeCount(f.bitsPerKey), (|filter| - 1) * 8;
    forall i | 0 <= i < k ensures BitSet(filter[..|filter| - 1], Probe(f.hash(key), i, bits)) {
      assert Reached(keys, f.hash, k, bits, Probe(f.hash(key), i, bits));
    }
  }

  /** Probe i goes to h + i * delta, wrapping at 32 bits, where delta is h rotated
      right by seventeen: its low seventeen bits become its high ones. */
  lemma ProbeAt(h: uint32, i: nat, bits: nat)
    requires bits > 0
    ensures Probe(h, i, bits) == (h + i * Delta(h)) % 0x1_0000_0000 % bits
    ensures Delta(h) % 0x8000 == h / 0x2_0000 && Delta(h) / 0x8000 == h % 0x2_0000
  {
    hide Delta;
    HighAndLow(h);
    ProbeHashAt(h, i, Delta(h));
  }

  lemma {:induction false} ProbeHashAt(h: uint32, i: nat, d: nat)
    requires d == Delta(h)
    ensures ProbeHash(h, i) == (h + i * d) % TwoTo32
  {
    if i > 0 {
      ProbeHashAt(h, i - 1, d);
      NextProbe(h, ProbeHash(h, i - 1), i, d);
    }
  }

  lemma NextProbe(h: nat, p: nat, i: nat, d: nat)
    requires i > 0 && p == (h + (i - 1) * d) % TwoTo32
    ensures (p + d) % TwoTo32 == (h + i * d) % TwoTo32
  {
    var x := h + (i - 1) * d;
    assert x + d == h + i * d;
    AddedTurns(x, d);
  }

  lemma HighAndLow(h: uint32)
    ensures Delta(h) % 0x8000 == h / 0x2_0000 && Delta(h) / 0x8000 == h % 0x2_0000
  {
  }

  lemma AddedTurns(a: nat, d: nat)
    ensures (a % TwoTo32 + d) % TwoTo32 == (a + d) % TwoTo32
  {
  }

  /** Room for the bits asked for and for sixty-four, in whole bytes and no more; as
      many probes as 0.69 of the bits per key, between one and thirty. */
  lemma FilterShape(n: nat, bitsPerKey: int)
    ensures var bits := ByteCount(n, bitsPerKey) * 8;
            bits >= 64 && bits >= n * bitsPerKey && (bits < n * bitsPerKey + 8 || bits == 64)
    ensures var k := ProbeCount(bitsPerKey);
            && 1 <= k <= 30
            && (k > 1 ==> k as real <= bitsPerKey as real * 0.69)
            && (k < 30 ==> bitsPerKey as real * 0.69 < k as real + 1.0)
  {
  }
}
