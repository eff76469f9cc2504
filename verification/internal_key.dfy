/** Internal keys: a user key, a sequence number and a record kind, packed into
    one byte string, and the order in which every sorted structure keeps them. */
module InternalKeys {
  import opened Bytes

  datatype Kind = Value | Tombstone

  datatype InternalKey = InternalKey(user: bytes, num: nat, kind: Kind)

  datatype Decoded = Ok(key: InternalKey) | TooShort | InvalidType

  const MaxSeq: nat := 0x100_0000_0000_0000  // 2^56

  function KindByte(k: Kind): byte { match k case Value => 1 case Tombstone => 2 }

  /** The user key followed by the trailer (seq << 8) | type. The source panics
      when seq does not fit in 56 bits. */
  function Encode(k: InternalKey): (b: bytes)
    requires k.num < MaxSeq
    ensures |b| == |k.user| + 8
  {
    k.user + PutU64(k.num * 256 + KindByte(k.kind))
  }

  function ExtractUserKey(b: bytes): bytes {
    if |b| < 8 then [] else b[..|b| - 8]
  }

  /** Sequence number and raw type byte, or None for a key too short. */
  function ExtractTrailer(b: bytes): (r: Option<(nat, byte)>) {
    if |b| < 8 then None
    else
      var t := U64At(b, |b| - 8);
      Some((t / 256, t % 256))
  }

  function Decode(b: bytes): Decoded {
    if |b| < 8 then TooShort
    else
      var t := ExtractTrailer(b).value;
      if t.1 == 1 then Ok(InternalKey(ExtractUserKey(b), t.0, Value))
      else if t.1 == 2 then Ok(InternalKey(ExtractUserKey(b), t.0, Tombstone))
      else InvalidType
  }

  /** The comparator: user key ascending, sequence descending, type ascending.
      A key too short to hold a trailer reads as sequence 0, type 0. */
  function CompareKeys(a: bytes, b: bytes): int {
    var c := Compare(ExtractUserKey(a), ExtractUserKey(b));
    if c != 0 then c
    else
      var ta := ExtractTrailer(a);
      var tb := ExtractTrailer(b);
      var (aSeq, aType) := if ta.Some? then ta.value else (0, 0);
      var (bSeq, bType) := if tb.Some? then tb.value else (0, 0);
      if aSeq > bSeq then -1
      else if aSeq < bSeq then 1
      else if aType < bType then -1
      else if aType > bType then 1
      else 0
  }

  /** The same order on decoded keys. */
  predicate Before(a: InternalKey, b: InternalKey) {
    Compare(a.user, b.user) < 0 ||
    (a.user == b.user &&
     (a.num > b.num || (a.num == b.num && a.kind.Value? && b.kind.Tombstone?)))
  }

  // ------------------------------------------------------------------ lemmas

  lemma EncodeThenExtract(k: InternalKey)
    requires k.num < MaxSeq
    ensures ExtractUserKey(Encode(k)) == k.user
    ensures ExtractTrailer(Encode(k)) == Some((k.num, KindByte(k.kind)))
  {
    var b := Encode(k);
    var t := k.num * 256 + KindByte(k.kind);
    assert b[|b| - 8..|b| - 8 + 8] == PutU64(t);
    U64RoundTrip(b, |b| - 8, t);
    assert t / 256 == k.num && t % 256 == KindByte(k.kind);
  }

  /** The bytes: the user key, a kind byte, and seven bytes of sequence number, low
      byte first. */
  lemma KeyLayout(k: InternalKey)
    requires k.num < MaxSeq
    ensures var b, n := Encode(k), |k.user|;
            && |b| == n + 8 && b[..n] == k.user && b[n] == (if k.kind == Value then 1 else 2)
            && U64At(b, n) / 0x100 == k.num && b[n + 1] == k.num % 0x100
  {
    var b, n, kind := Encode(k), |k.user|, KindByte(k.kind);
    EncodeThenExtract(k);
    var t := k.num * 256 + kind;
    assert t % 256 == kind && t / 256 == k.num;
    var tail := PutU64(t);
    assert tail[0] == kind && tail[1..] == PutLE(k.num, 7);
    assert b[n] == tail[0] && b[n + 1] == tail[1..][0];
  }

  lemma EncodeDecode(k: InternalKey)
    requires k.num < MaxSeq
    ensures Decode(Encode(k)) == Ok(k)
  {
    EncodeThenExtract(k);
  }

  /** Decoding accepts nothing but encodings, so encoded keys and decoded keys
      are in one-to-one correspondence. */
  lemma DecodeEncode(b: bytes)
    requires Decode(b).Ok?
    ensures Decode(b).key.num < MaxSeq
    ensures Encode(Decode(b).key) == b
  {
    var t := b[|b| - 8..|b| - 8 + 8];
    GetPutLE(t);
    Widths();
    var x := GetLE(t);
    assert x / 256 * 256 + x % 256 == x;
    assert b == b[..|b| - 8] + t;
  }

  lemma ComparatorOnEncodings(a: InternalKey, b: InternalKey)
    requires a.num < MaxSeq && b.num < MaxSeq
    ensures CompareKeys(Encode(a), Encode(b)) < 0 <==> Before(a, b)
    ensures CompareKeys(Encode(a), Encode(b)) == 0 <==> a == b
  {
    EncodeThenExtract(a);
    EncodeThenExtract(b);
    CompareFlips(a.user, b.user);
  }

  /** A short key is indistinguishable from eight zero bytes. */
  function Padded(b: bytes): bytes { if |b| < 8 then [0, 0, 0, 0, 0, 0, 0, 0] else b }

  lemma PaddedTrailer(b: bytes)
    requires |b| < 8
    ensures ExtractTrailer(Padded(b)) == Some((0, 0))
  {
    assert Pow256(0) == 1;
    Widths();
    assert Padded(b)[0..8] == PutU64(0);
    U64RoundTrip(Padded(b), 0, 0);
  }

  lemma TrailerDetermines(a: bytes, b: bytes)
    requires |a| >= 8 && |b| >= 8
    requires ExtractUserKey(a) == ExtractUserKey(b) && ExtractTrailer(a) == ExtractTrailer(b)
    ensures a == b
  {
    var ta, tb := a[|a| - 8..|a| - 8 + 8], b[|b| - 8..|b| - 8 + 8];
    GetPutLE(ta);
    GetPutLE(tb);
    assert GetLE(ta) / 256 == GetLE(tb) / 256 && GetLE(ta) % 256 == GetLE(tb) % 256;
    assert GetLE(ta) == GetLE(tb);
    assert a == ExtractUserKey(a) + ta && b == ExtractUserKey(b) + tb;
  }

  /** The comparator is a total preorder on all byte strings, and it calls two
      keys equal exactly when they are the same up to the padding of short ones. */
  lemma ComparatorFlips(a: bytes, b: bytes)
    ensures CompareKeys(a, b) == -CompareKeys(b, a)
    ensures CompareKeys(a, b) == 0 <==> Padded(a) == Padded(b)
  {
    CompareFlips(ExtractUserKey(a), ExtractUserKey(b));
    if |a| < 8 { PaddedTrailer(a); }
    if |b| < 8 { PaddedTrailer(b); }
    if CompareKeys(a, b) == 0 {
      TrailerDetermines(Padded(a), Padded(b));
    }
  }

  lemma ComparatorTransitive(a: bytes, b: bytes, c: bytes)
    requires CompareKeys(a, b) <= 0 && CompareKeys(b, c) <= 0
    ensures CompareKeys(a, c) <= 0
    ensures CompareKeys(a, b) < 0 || CompareKeys(b, c) < 0 ==> CompareKeys(a, c) < 0
  {
    var ua, ub, uc := ExtractUserKey(a), ExtractUserKey(b), ExtractUserKey(c);
    CompareFlips(ua, ub);
    CompareFlips(ub, uc);
    CompareTransitive(ua, ub, uc);
    CompareFlips(ua, uc);
  }

  lemma BeforeTotal(a: InternalKey, b: InternalKey)
    ensures a == b || Before(a, b) || Before(b, a)
    ensures Before(a, b) ==> a != b && !Before(b, a)
  {
    CompareFlips(a.user, b.user);
  }

  lemma BeforeTransitive(a: InternalKey, b: InternalKey, c: InternalKey)
    requires Before(a, b) && Before(b, c)
    ensures Before(a, c)
  {
    CompareFlips(a.user, b.user);
    CompareFlips(b.user, c.user);
    CompareFlips(a.user, c.user);
    CompareTransitive(a.user, b.user, c.user);
  }

  /** The order's facts in quantified form, for proofs over whole sequences. */
  lemma OrderFacts()
    ensures forall a, b {:trigger Before(a, b)} :: Before(a, b) ==> a != b && !Before(b, a)
    ensures forall a, b, c {:trigger Before(a, b), Before(b, c)} :: Before(a, b) && Before(b, c) ==> Before(a, c)
  {
    forall a, b | Before(a, b) ensures a != b && !Before(b, a) { BeforeTotal(a, b); }
    forall a, b, c | Before(a, b) && Before(b, c) ensures Before(a, c) { BeforeTransitive(a, b, c); }
  }

  /** Comparing encoded keys as plain bytes is a different order: a delete that
      supersedes a put of the same user key sorts before it here, and after it
      byte by byte. */
  lemma RawOrderDisagrees(user: bytes)
    ensures var put := InternalKey(user, 1, Value);
            var del := InternalKey(user, 2, Tombstone);
            && Before(del, put)
            && Compare(Encode(put), Encode(del)) < 0
  {
    var put, del := InternalKey(user, 1, Value), InternalKey(user, 2, Tombstone);
    assert PutU64(257)[0] == 1 && PutU64(514)[0] == 2;
    CompareAfterPrefix(user, PutU64(257), PutU64(514));
  }

  lemma {:induction false} CompareAfterPrefix(p: bytes, a: bytes, b: bytes)
    ensures Compare(p + a, p + b) == Compare(a, b)
    decreases |p|
  {
    if p == [] {
      assert p + a == a && p + b == b;
    } else {
      CompareAfterPrefix(p[1..], a, b);
      assert (p + a)[1..] == p[1..] + a && (p + b)[1..] == p[1..] + b;
    }
  }
}
