/** Blocks: prefix-compressed entries, restart points every sixteen of them, and
    the iterator that parses and searches them. */
module Blocks {
  import opened Bytes

  const RestartInterval: nat := 16

  datatype Pair = Pair(key: bytes, value: bytes)

  // --------------------------------------------------------------- the format

  /** How much of entry i's key is taken from the one before it. */
  function SharedAt(es: seq<Pair>, i: nat): (n: nat)
    requires i < |es|
    ensures n <= |es[i].key| && (n > 0 ==> i > 0 && i % RestartInterval != 0 && n <= |es[i - 1].key|)
    ensures n > 0 ==> es[i - 1].key[..n] == es[i].key[..n]
  {
    if i % RestartInterval == 0 then 0 else SharedPrefix(es[i - 1].key, es[i].key)
  }

  function EncodeEntry(shared: nat, e: Pair): (b: bytes)
    requires shared <= |e.key|
    ensures |b| >= 3
  {
    PutUvarint(shared) + PutUvarint(|e.key| - shared) + PutUvarint(|e.value|) + e.key[shared..] + e.value
  }

  function Chunk(es: seq<Pair>, i: nat): (b: bytes)
    requires i < |es|
    ensures |b| >= 3
  {
    EncodeEntry(SharedAt(es, i), es[i])
  }

  /** The first n entries, encoded one after another. */
  function Encoded(es: seq<Pair>, n: nat): (b: bytes)
    requires n <= |es|
    ensures b == [] <==> n == 0
  {
    if n == 0 then [] else Encoded(es, n - 1) + Chunk(es, n - 1)
  }

  /** Where entry i starts. */
  function Offset(es: seq<Pair>, i: nat): nat
    requires i <= |es|
  {
    |Encoded(es, i)|
  }

  function RestartCount(n: nat): (c: nat)
    ensures c >= 1 && (n > 0 ==> (c - 1) * RestartInterval < n <= c * RestartInterval)
  {
    if n == 0 then 1 else (n - 1) / RestartInterval + 1
  }

  function Restarts(es: seq<Pair>): (r: seq<nat>)
    ensures |r| == RestartCount(|es|)
  {
    seq(RestartCount(|es|), j requires 0 <= j < RestartCount(|es|) => Offset(es, j * RestartInterval))
  }

  function PutAll32(ns: seq<nat>): (b: bytes)
    ensures |b| == 4 * |ns|
    decreases |ns|
  {
    if ns == [] then [] else PutAll32(ns[..|ns| - 1]) + PutU32(ns[|ns| - 1])
  }

  /** A finished block: entries, restart offsets, restart count. */
  function Finished(es: seq<Pair>): bytes {
    Encoded(es, |es|) + PutAll32(Restarts(es)) + PutU32(|Restarts(es)|)
  }

  // ---------------------------------------------------- growing by one entry

  lemma {:induction false} EncodedPrefix(es: seq<Pair>, e: Pair, n: nat)
    requires n <= |es|
    ensures Encoded(es + [e], n) == Encoded(es, n)
  {
    hide Chunk;
    if n > 0 {
      EncodedPrefix(es, e, n - 1);
      ChunkStays(es, e, n - 1);
    }
  }

  lemma ChunkStays(es: seq<Pair>, e: Pair, i: nat)
    requires i < |es|
    ensures Chunk(es + [e], i) == Chunk(es, i)
  {
    hide EncodeEntry, SharedPrefix;
    assert (es + [e])[i] == es[i];
    assert i > 0 ==> (es + [e])[i - 1] == es[i - 1];
  }

  lemma RestartsGrow(es: seq<Pair>, e: Pair)
    ensures Restarts(es + [e]) ==
              if |es| > 0 && |es| % RestartInterval == 0 then Restarts(es) + [Offset(es, |es|)] else Restarts(es)
  {
    var n, c := |es|, RestartCount(|es|);
    RestartSteps(n);
    forall j | 0 <= j < c ensures Offset(es + [e], j * RestartInterval) == Offset(es, j * RestartInterval) {
      EncodedPrefix(es, e, j * RestartInterval);
    }
    if n > 0 && n % RestartInterval == 0 { EncodedPrefix(es, e, n); }
  }

  lemma RestartSteps(n: nat)
    ensures RestartCount(n + 1) == if n > 0 && n % RestartInterval == 0 then RestartCount(n) + 1 else RestartCount(n)
    ensures n > 0 && n % RestartInterval == 0 ==> RestartCount(n) * RestartInterval == n
  {
  }

  class BlockBuilder {
    var buf: bytes
    var restarts: seq<nat>
    var counter: nat
    var lastUnsafeKey: Option<bytes>
    var finished: bool
    /** What has been added since the last reset. */
    ghost var entries: seq<Pair>

    ghost predicate Valid()
      reads this
    {
      && !finished && buf == Encoded(entries, |entries|) && restarts == Restarts(entries)
      && counter == (if entries == [] then 0 else (|entries| - 1) % RestartInterval + 1)
      && lastUnsafeKey == (if entries == [] then None else Some(entries[|entries| - 1].key))
    }

    constructor ()
      ensures Valid() && entries == []
    {
      buf, restarts, counter, lastUnsafeKey, finished, entries := [], [0], 0, None, false, [];
    }

    method Reset()
      modifies this
      ensures Valid() && entries == [] && buf == []
    {
      buf, restarts, counter, lastUnsafeKey, finished, entries := [], [0], 0, None, false, [];
    }

    method Add(key: bytes, value: bytes)
      requires Valid()
      modifies this
      ensures Valid() && entries == old(entries) + [Pair(key, value)]
    {
      hide EncodeEntry, Encoded, SharedPrefix, Restarts;
      var shared := 0;
      if counter < RestartInterval && lastUnsafeKey.Some? {
        shared := CommonPrefix(lastUnsafeKey.value, key);
      } else if counter >= RestartInterval {
        restarts := restarts + [|buf|];
        counter := 0;
      }
      Grow(entries, key, value, shared);
      buf := buf + EncodeEntry(shared, Pair(key, value));
      lastUnsafeKey := Some(key);
      counter := counter + 1;
      entries := entries + [Pair(key, value)];
    }

    static method CommonPrefix(last: bytes, key: bytes) returns (shared: nat)
      ensures shared == SharedPrefix(last, key)
    {
      shared := 0;
      var minLen := if |key| < |last| then |key| else |last|;
      while shared < minLen && last[shared] == key[shared]
        invariant shared <= minLen && last[..shared] == key[..shared]
      {
        shared := shared + 1;
      }
      SharedPrefixIs(last, key, shared);
    }

    method Finish() returns (block: bytes)
      requires Valid()
      modifies this
      ensures block == Finished(entries) && entries == old(entries)
      ensures finished && buf == block
    {
      hide Encoded, Restarts, PutLE;
      ghost var encoded := buf;
      for i := 0 to |restarts|
        invariant restarts == old(restarts) && entries == old(entries)
        invariant buf == encoded + PutAll32(restarts[..i])
      {
        assert restarts[..i + 1][..i] == restarts[..i];
        buf := buf + PutU32(restarts[i]);
        assert buf == encoded + PutAll32(restarts[..i + 1]);
      }
      assert restarts[..|restarts|] == restarts;
      buf := buf + PutU32(|restarts|);
      finished := true;
      block := buf;
    }
  }

  lemma {:induction false} SharedPrefixIs(a: bytes, b: bytes, n: nat)
    requires n <= |a| && n <= |b| && a[..n] == b[..n]
    requires n < |a| && n < |b| ==> a[n] != b[n]
    ensures SharedPrefix(a, b) == n
  {
    if n > 0 {
      assert a[0] == a[..n][0] && b[0] == b[..n][0];
      assert a[1..][..n - 1] == a[..n][1..] && b[1..][..n - 1] == b[..n][1..];
      SharedPrefixIs(a[1..], b[1..], n - 1);
    }
  }

  lemma Grow(es: seq<Pair>, key: bytes, value: bytes, shared: nat)
    requires shared <= |key|
    requires shared == if |es| % RestartInterval == 0 then 0 else SharedPrefix(es[|es| - 1].key, key)
    ensures var after := es + [Pair(key, value)];
            && Encoded(after, |after|) == Encoded(es, |es|) + EncodeEntry(shared, Pair(key, value))
            && Restarts(after) == if |es| > 0 && |es| % RestartInterval == 0 then Restarts(es) + [Offset(es, |es|)] else Restarts(es)
  {
    EncodedPrefix(es, Pair(key, value), |es|);
    RestartsGrow(es, Pair(key, value));
  }

  // ------------------------------------------------------------------ parsing

  /** One entry at an offset, given the key parsed before it: key, value and
      bytes used, or None where the source reports a corrupt block. */
  function ParseEntry(data: bytes, restarts: nat, previous: bytes, offset: nat): (r: Option<(bytes, bytes, nat)>)
    ensures r.Some? ==> 0 < r.value.2 && offset + r.value.2 <= |data|
  {
    if offset >= restarts || offset > |data| then None
    else
      var src := data[offset..];
      match ReadUvarint(src, 0)
      case None => None
      case Some(a) =>
        match ReadUvarint(src[a.1..], 0)
        case None => None
        case Some(b) =>
          match ReadUvarint(src[a.1 + b.1..], 0)
          case None => None
          case Some(c) =>
            var at := a.1 + b.1 + c.1;
            if |src| < at + b.0 + c.0 then None
            else if a.0 > 0 && |previous| < a.0 then None
            else Some((previous[..a.0] + src[at..at + b.0], src[at + b.0..at + b.0 + c.0], at + b.0 + c.0))
  }

  lemma UvarintThen(x: nat, rest: bytes)
    requires x <= MaxUint64
    ensures ReadUvarint(PutUvarint(x) + rest, 0) == Some((x, |PutUvarint(x)|))
    ensures (PutUvarint(x) + rest)[|PutUvarint(x)|..] == rest
  {
    VarintHolds64Bits();
    UvarintRoundTrip(x, rest, 0);
  }

  lemma ThreeLengths(shared: nat, unshared: nat, vlen: nat, rest: bytes)
    requires shared <= MaxUint64 && unshared <= MaxUint64 && vlen <= MaxUint64
    ensures var a, b, c := PutUvarint(shared), PutUvarint(unshared), PutUvarint(vlen);
            var src := a + b + c + rest;
            && ReadUvarint(src, 0) == Some((shared, |a|))
            && ReadUvarint(src[|a|..], 0) == Some((unshared, |b|))
            && ReadUvarint(src[|a| + |b|..], 0) == Some((vlen, |c|))
            && src[|a| + |b| + |c|..] == rest
  {
    hide ReadUvarint, PutUvarint;
    var a, b, c := PutUvarint(shared), PutUvarint(unshared), PutUvarint(vlen);
    ThreeSlices(a, b, c, rest);
    UvarintThen(shared, b + (c + rest));
    UvarintThen(unshared, c + rest);
    UvarintThen(vlen, rest);
  }

  lemma ThreeSlices(a: bytes, b: bytes, c: bytes, rest: bytes)
    ensures var src := a + b + c + rest;
            && src == a + (b + (c + rest))
            && src[|a|..] == b + (c + rest)
            && src[|a| + |b|..] == c + rest
            && src[|a| + |b| + |c|..] == rest
  {
  }

  /** An entry parses back from where it was written, given the key it shares
      its prefix with. */
  lemma EntryParses(before: bytes, shared: nat, e: Pair, after: bytes, restarts: nat, previous: bytes)
    requires |before| < restarts && shared <= |e.key| <= MaxUint64 && |e.value| <= MaxUint64
    requires shared <= |previous| && previous[..shared] == e.key[..shared]
    ensures ParseEntry(before + EncodeEntry(shared, e) + after, restarts, previous, |before|)
              == Some((e.key, e.value, |EncodeEntry(shared, e)|))
  {
    hide ReadUvarint, PutUvarint;
    var unshared, vlen := |e.key| - shared, |e.value|;
    var head := PutUvarint(shared) + PutUvarint(unshared) + PutUvarint(vlen);
    var rest := e.key[shared..] + e.value + after;
    var src := head + rest;
    assert (before + EncodeEntry(shared, e) + after)[|before|..] == src;
    ThreeLengths(shared, unshared, vlen, rest);
    BodySlices(head, e.key[shared..], e.value, after);
    assert previous[..shared] + e.key[shared..] == e.key;
  }

  lemma BodySlices(head: bytes, k: bytes, v: bytes, after: bytes)
    ensures var src, at := head + (k + v + after), |head|;
            && src[at..at + |k|] == k && src[at + |k|..at + |k| + |v|] == v
  {
  }

  lemma {:induction false} EncodedSplits(es: seq<Pair>, i: nat, n: nat) returns (after: bytes)
    requires i < n <= |es|
    ensures Encoded(es, n) == Encoded(es, i) + Chunk(es, i) + after
    decreases n
  {
    hide Chunk;
    if n == i + 1 {
      after := [];
    } else {
      var a := EncodedSplits(es, i, n - 1);
      after := a + Chunk(es, n - 1);
      assert Encoded(es, i) + Chunk(es, i) + a + Chunk(es, n - 1) == Encoded(es, i) + Chunk(es, i) + (a + Chunk(es, n - 1));
    }
  }

  lemma {:induction false} OffsetsGrow(es: seq<Pair>, i: nat, j: nat)
    requires i <= j <= |es|
    ensures Offset(es, i) <= Offset(es, j)
    ensures i < j ==> Offset(es, i) < Offset(es, j)
    decreases j
  {
    if i < j { OffsetsGrow(es, i, j - 1); }
  }

  /** The sizes the source's 32- and 64-bit fields can hold. */
  ghost predicate Fits(es: seq<Pair>) {
    && |Finished(es)| <= MaxUint32
    && forall e :: e in es ==> |e.key| <= MaxUint64 && |e.value| <= MaxUint64
  }

  /** The key a parse of entry i needs to have seen. */
  ghost predicate Primed(es: seq<Pair>, i: nat, previous: bytes) {
    i < |es| && (i % RestartInterval == 0 || previous == es[i - 1].key)
  }

  lemma ParsesAt(es: seq<Pair>, i: nat, previous: bytes)
    requires Fits(es) && Primed(es, i, previous)
    ensures ParseEntry(Finished(es), Offset(es, |es|), previous, Offset(es, i))
              == Some((es[i].key, es[i].value, Offset(es, i + 1) - Offset(es, i)))
  {
    hide ParseEntry, EncodeEntry;
    assert es[i] in es;
    var after := EncodedSplits(es, i, |es|);
    var tail := after + PutAll32(Restarts(es)) + PutU32(|Restarts(es)|);
    assert Finished(es) == Encoded(es, i) + Chunk(es, i) + tail;
    OffsetsGrow(es, i, |es|);
    EntryParses(Encoded(es, i), SharedAt(es, i), es[i], tail, Offset(es, |es|), previous);
  }

  lemma {:induction false} PutAllAt(ns: seq<nat>, j: nat)
    requires j < |ns|
    ensures PutAll32(ns)[4 * j..4 * j + 4] == PutU32(ns[j])
    decreases |ns|
  {
    var n := |ns| - 1;
    if j < n {
      PutAllAt(ns[..n], j);
      assert PutAll32(ns)[4 * j..4 * j + 4] == PutAll32(ns[..n])[4 * j..4 * j + 4];
    }
  }

  /** The restart table reads back. */
  lemma RestartTable(es: seq<Pair>, j: nat)
    requires Fits(es) && j < |Restarts(es)|
    ensures var data := Finished(es);
            && U32At(data, |data| - 4) == |Restarts(es)|
            && Offset(es, |es|) + 4 * j + 4 <= |data|
            && U32At(data, Offset(es, |es|) + 4 * j) == Restarts(es)[j]
  {
    hide Encoded, PutAll32;
    var data, rs := Finished(es), Restarts(es);
    var o := Offset(es, |es|);
    assert data[|data| - 4..|data| - 4 + 4] == PutU32(|rs|);
    U32RoundTrip(data, |data| - 4, |rs|);
    PutAllAt(rs, j);
    assert data[o + 4 * j..o + 4 * j + 4] == PutAll32(rs)[4 * j..4 * j + 4];
    OffsetsGrow(es, j * RestartInterval, |es|);
    U32RoundTrip(data, o + 4 * j, rs[j]);
  }

  ghost predicate LongestCommon(a: bytes, b: bytes, n: nat) {
    n <= |a| && n <= |b| && a[..n] == b[..n] && (n < |a| && n < |b| ==> a[n] != b[n])
  }

  /** What is stored first at an entry's place: every sixteenth starts afresh, and
      any other leaves out the longest prefix it has in common with the key before. */
  lemma EntrySharesPrefix(es: seq<Pair>, i: nat)
    requires Fits(es) && i < |es|
    ensures Offset(es, i) < |Finished(es)|
    ensures var n := ReadUvarint(Finished(es)[Offset(es, i)..], 0);
            && n.Some?
            && if i % 16 == 0 then n.value.0 == 0 else LongestCommon(es[i - 1].key, es[i].key, n.value.0)
  {
    hide ReadUvarint, PutUvarint, Finished, Encoded, Restarts, Fits, SharedAt;
    var shared := SharedAt(es, i);
    var rest := EntryStart(es, i);
    KeyLength(es, i);
    UvarintThen(shared, rest);
    SharedIsLongest(es, i);
  }

  lemma KeyLength(es: seq<Pair>, i: nat)
    requires Fits(es) && i < |es|
    ensures |es[i].key| <= MaxUint64
  {
    hide Finished;
    assert es[i] in es;
  }

  lemma SharedIsLongest(es: seq<Pair>, i: nat)
    requires i < |es|
    ensures if i % 16 == 0 then SharedAt(es, i) == 0 else LongestCommon(es[i - 1].key, es[i].key, SharedAt(es, i))
  {
  }

  lemma EntryStart(es: seq<Pair>, i: nat) returns (rest: bytes)
    requires i < |es|
    ensures Offset(es, i) < |Finished(es)|
    ensures Finished(es)[Offset(es, i)..] == PutUvarint(SharedAt(es, i)) + rest
  {
    hide PutUvarint, Encoded, Restarts, SharedAt;
    var after := EncodedSplits(es, i, |es|);
    var shared, tail := SharedAt(es, i), after + PutAll32(Restarts(es)) + PutU32(|Restarts(es)|);
    var fields := PutUvarint(|es[i].key| - shared) + PutUvarint(|es[i].value|) + es[i].key[shared..] + es[i].value;
    assert Chunk(es, i) == PutUvarint(shared) + fields;
    rest := fields + tail;
    assert Finished(es) == Encoded(es, i) + (Chunk(es, i) + tail);
    assert Chunk(es, i) + tail == PutUvarint(shared) + rest;
  }

  /** A restart point at every sixteenth entry, and one in an empty block. */
  lemma RestartsAt(es: seq<Pair>)
    ensures |Restarts(es)| == if es == [] then 1 else (|es| + 15) / 16
    ensures forall j :: 0 <= j < |Restarts(es)| ==> 16 * j <= |es| && Restarts(es)[j] == Offset(es, 16 * j)
  {
    hide Offset;
  }

  /** Keys in plain byte order, repeats allowed. */
  ghost predicate ByteOrdered(es: seq<Pair>) {
    forall i, j :: 0 <= i < j < |es| ==> Compare(es[i].key, es[j].key) <= 0
  }

  /** Linear search: the first entry whose key is not below target. */
  function FirstAtLeast(es: seq<Pair>, target: bytes): (i: nat)
    ensures i <= |es|
    ensures forall j :: 0 <= j < i ==> Compare(es[j].key, target) < 0
    ensures i < |es| ==> Compare(es[i].key, target) >= 0
  {
    if es == [] || Compare(es[0].key, target) >= 0 then 0 else 1 + FirstAtLeast(es[1..], target)
  }

  class BlockIterator {
    const data: bytes
    const restarts: nat
    const numRestarts: nat
    var offset: nat
    var nextOffset: nat
    var key: bytes
    var value: bytes
    var err: bool
    var valid: bool
    /** The entries the block was built from. */
    ghost const es: seq<Pair>

    ghost predicate Built()
    {
      && Fits(es) && data == Finished(es)
      && restarts == Offset(es, |es|) && numRestarts == |Restarts(es)|
    }

    ghost predicate OnEntry(i: nat)
      reads this
    {
      && i < |es| && valid && !err && key == es[i].key && value == es[i].value
      && offset == Offset(es, i) && nextOffset == Offset(es, i + 1)
    }

    /** Standing on entry i, or past the last one. */
    ghost predicate At(i: nat)
      reads this
    {
      if i < |es| then OnEntry(i) else i == |es| && !valid && nextOffset >= restarts
    }

    lemma Standing(i: nat)
      requires At(i) && !err
      ensures i <= |es| && (IsValid() <==> i < |es|)
    {
    }

    /** Just before entry i. */
    ghost predicate BeforeEntry(i: nat)
      reads this
    {
      && i <= |es| && !err && nextOffset == Offset(es, i)
      && (i < |es| ==> Primed(es, i, key))
    }

    /** The restart table lies inside the data. */
    ghost predicate Readable() {
      numRestarts >= 1 && restarts + 4 * numRestarts <= |data|
    }

    /** Reads the restart table from the end of the data, in 32-bit arithmetic;
        data too short for it gives an iterator in error. */
    constructor (data: bytes, ghost es: seq<Pair>)
      ensures !valid && this.es == es
      ensures Fits(es) && data == Finished(es) ==> Built() && Readable() && this.data == data && !err
    {
      hide Encoded, PutAll32, Restarts, GetLE, PutLE;
      var n := |data| % (MaxUint32 + 1);
      offset, nextOffset, key, value, valid := 0, 0, [], [], false;
      this.es := es;
      if n < 4 {
        this.data, this.numRestarts, this.restarts, err := [], 0, 0, true;
      } else {
        var count := U32At(data, n - 4);
        var start := (n - 4 - count * 4) % (MaxUint32 + 1);
        if start > n - 4 {
          this.data, this.numRestarts, this.restarts, err := [], 0, 0, true;
        } else {
          this.data, this.numRestarts, this.restarts, err := data, count, start, false;
        }
      }
      new;
      if Fits(es) && data == Finished(es) { RestartTable(es, 0); }
    }

    predicate IsValid()
      reads this
    {
      valid && !err
    }

    function GetRestartPoint(index: nat): nat
      requires Readable() && index < numRestarts
    {
      U32At(data, restarts + index * 4)
    }

    lemma RestartPoint(index: nat)
      requires Built() && Readable() && index < numRestarts
      ensures GetRestartPoint(index) == Offset(es, index * RestartInterval)
    {
      RestartTable(es, index);
    }

    method SeekToRestartPoint(index: nat)
      requires Readable()
      modifies this
      ensures nextOffset == offset == GetRestartPoint(if index >= numRestarts then 0 else index) && !valid
      ensures key == old(key) && err == old(err)
    {
      var o := GetRestartPoint(if index >= numRestarts then 0 else index);
      nextOffset, offset, valid := o, o, false;
    }

    /** Parses the entry at nextOffset, if there is one. */
    method ParseNext() returns (ok: bool)
      modifies this
      ensures old(nextOffset) >= restarts ==> !ok && !valid && err == old(err) && nextOffset == old(nextOffset)
      ensures old(nextOffset) < restarts ==>
        match ParseEntry(data, restarts, old(key), old(nextOffset))
        case None => !ok && !valid && err
        case Some(r) =>
          && ok && valid && err == old(err) && key == r.0 && value == r.1
          && offset == old(nextOffset) && nextOffset == offset + r.2
    {
      hide ParseEntry;
      if nextOffset >= restarts {
        valid := false;
        return false;
      }
      offset := nextOffset;
      match ParseEntry(data, restarts, key, offset) {
        case None =>
          valid, err := false, true;
          return false;
        case Some(r) =>
          key, value := r.0, r.1;
          nextOffset := offset + r.2;
          valid := true;
          return true;
      }
    }

    /** What that parse meets in a built block. */
    lemma NextEntry(i: nat)
      requires Built() && BeforeEntry(i)
      ensures nextOffset < restarts <==> i < |es|
      ensures i < |es| ==> ParseEntry(data, restarts, key, nextOffset)
                             == Some((es[i].key, es[i].value, Offset(es, i + 1) - Offset(es, i)))
    {
      hide ParseEntry, Encoded, Finished, Restarts, RestartCount;
      AtEnd(es, i);
      if i < |es| { ParsesAt(es, i, key); }
    }

    method SeekToFirst()
      requires Built() && Readable() && !err
      modifies this
      ensures At(0) && !err
    {
      hide ParseEntry, Encoded, Finished, Restarts, RestartCount;
      SeekToRestartPoint(0);
      RestartPoint(0);
      NextEntry(0);
      var _ := ParseNext();
    }

    method Next(ghost i: nat)
      requires Built() && !err && At(i)
      modifies this
      ensures At(if i < |es| then i + 1 else i) && !err
    {
      hide ParseEntry, Encoded, Finished, Restarts, RestartCount;
      if i < |es| { NextEntry(i + 1); }
      offset := nextOffset;
      if offset >= restarts {
        valid := false;
        return;
      }
      var _ := ParseNext();
    }

    /** Binary search: the last restart point whose key is below target, or the
        first one; false when a restart entry is corrupt. */
    method FindRestart(target: bytes) returns (left: nat, ok: bool)
      requires Readable()
      ensures left < numRestarts
      ensures Built() && ByteOrdered(es) ==> ok
      ensures Built() && ByteOrdered(es) && left > 0 ==>
                left * RestartInterval < |es| && Compare(es[left * RestartInterval].key, target) < 0
      ensures Built() && ByteOrdered(es) ==> AllFrom(es, left + 1, target)
    {
      hide ParseEntry, Encoded, Finished, Restarts;
      left := 0;
      var right := numRestarts - 1;
      while left < right
        invariant 0 <= left <= right < numRestarts
        invariant Built() && left > 0 ==> left * RestartInterval < |es| && Compare(es[left * RestartInterval].key, target) < 0
        invariant Built() && ByteOrdered(es) ==> AllFrom(es, right + 1, target)
      {
        var mid := (left + right + 1) / 2;
        var regionOffset := GetRestartPoint(mid);
        if Built() { MidParses(mid); }
        match ParseEntry(data, restarts, key, regionOffset) {
          case None => return left, false;
          case Some(r) =>
            if Compare(r.0, target) < 0 {
              left := mid;
            } else {
              if Built() && ByteOrdered(es) { HigherRestarts(es, target, mid); }
              right := mid - 1;
            }
        }
      }
      return left, true;
    }

    /** A restart entry parses whatever key came before. */
    lemma MidParses(mid: nat)
      requires Built() && Readable() && 0 < mid < numRestarts
      ensures mid * RestartInterval < |es|
      ensures forall k :: ParseEntry(data, restarts, k, GetRestartPoint(mid)).Some?
      ensures forall k :: ParseEntry(data, restarts, k, GetRestartPoint(mid)).value.0 == es[mid * RestartInterval].key
    {
      hide ParseEntry, Encoded, Finished;
      RestartPoint(mid);
      assert mid < RestartCount(|es|);
      forall k
        ensures ParseEntry(data, restarts, k, GetRestartPoint(mid)).Some?
        ensures ParseEntry(data, restarts, k, GetRestartPoint(mid)).value.0 == es[mid * RestartInterval].key
      {
        ParsesAt(es, mid * RestartInterval, k);
      }
    }

    /** In a built block with ordered keys, lands where linear search over the
        whole block would. */
    method Seek(target: bytes)
      requires Readable()
      modifies this
      ensures Built() && ByteOrdered(es) && !old(err) ==> At(FirstAtLeast(es, target)) && !err
    {
      hide ParseEntry, Encoded, Finished, Restarts, RestartCount, FirstAtLeast, Compare;
      var left, found := FindRestart(target);
      if !found {
        err := true;
        return;
      }
      SeekToRestartPoint(left);
      ghost var good := Built() && ByteOrdered(es) && !old(err);
      ghost var i: nat := left * RestartInterval;
      if good { StartsBelow(left, target); }
      while true
        invariant good ==> BeforeEntry(i) && forall j :: 0 <= j < i ==> Compare(es[j].key, target) < 0
        decreases restarts - nextOffset
      {
        if good { NextEntry(i); FirstIs(es, target, i); }
        var ok := ParseNext();
        if !ok { return; }
        if Compare(key, target) >= 0 { return; }
        i := i + 1;
      }
    }

    lemma StartsBelow(left: nat, target: bytes)
      requires Built() && Readable() && ByteOrdered(es) && left < numRestarts && !err
      requires left > 0 ==> left * RestartInterval < |es| && Compare(es[left * RestartInterval].key, target) < 0
      requires nextOffset == GetRestartPoint(left)
      ensures BeforeEntry(left * RestartInterval)
      ensures forall j :: 0 <= j < left * RestartInterval ==> Compare(es[j].key, target) < 0
    {
      hide Encoded, Finished, Compare;
      RestartPoint(left);
      forall j | 0 <= j < left * RestartInterval ensures Compare(es[j].key, target) < 0 {
        CompareTransitive(es[j].key, es[left * RestartInterval].key, target);
      }
    }
  }

  lemma FirstIs(es: seq<Pair>, target: bytes, i: nat)
    requires i <= |es| && forall j :: 0 <= j < i ==> Compare(es[j].key, target) < 0
    ensures i < |es| && Compare(es[i].key, target) >= 0 ==> FirstAtLeast(es, target) == i
    ensures i == |es| ==> FirstAtLeast(es, target) == i
  {
    var f := FirstAtLeast(es, target);
    assert f < |es| ==> Compare(es[f].key, target) >= 0;
  }

  /** Every restart entry from number j on is at or above target. */
  ghost predicate AllFrom(es: seq<Pair>, j: nat, target: bytes) {
    forall m :: j <= m < RestartCount(|es|) && m * RestartInterval < |es| ==> Compare(es[m * RestartInterval].key, target) >= 0
  }

  lemma AtEnd(es: seq<Pair>, i: nat)
    requires i <= |es|
    ensures Offset(es, i) >= Offset(es, |es|) <==> i == |es|
  {
    OffsetsGrow(es, i, |es|);
  }

  /** Restart points from mid on start at or above target once mid's does. */
  lemma HigherRestarts(es: seq<Pair>, target: bytes, mid: nat)
    requires ByteOrdered(es) && mid * RestartInterval < |es| && Compare(es[mid * RestartInterval].key, target) >= 0
    ensures AllFrom(es, mid, target)
  {
    forall m | mid <= m < RestartCount(|es|) && m * RestartInterval < |es|
      ensures Compare(es[m * RestartInterval].key, target) >= 0
    {
      var a, b := es[mid * RestartInterval].key, es[m * RestartInterval].key;
      CompareFlips(a, target);
      CompareFlips(b, target);
      CompareFlips(a, b);
      if mid < m { CompareTransitive(target, a, b); }
    }
  }
}
