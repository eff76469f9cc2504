/** Byte strings: the lexicographic order of Go's bytes.Compare, fixed-width
    little-endian integers and base-128 varints. */
module Bytes {
  type byte = x: int | 0 <= x < 256
  type bytes = seq<byte>

  datatype Option<+T> = None | Some(value: T)

  /** Lexicographic comparison, -1, 0 or 1. */
  function Compare(a: bytes, b: bytes): int
    decreases |a|
  {
    if a == [] then (if b == [] then 0 else -1)
    else if b == [] then 1
    else if a[0] < b[0] then -1
    else if a[0] > b[0] then 1
    else Compare(a[1..], b[1..])
  }

  lemma {:induction false} CompareFlips(a: bytes, b: bytes)
    ensures Compare(a, b) == -Compare(b, a)
    ensures Compare(a, b) == 0 <==> a == b
    decreases |a|
  {
    if a != [] && b != [] && a[0] == b[0] {
      CompareFlips(a[1..], b[1..]);
      assert a == [a[0]] + a[1..] && b == [b[0]] + b[1..];
    }
  }

  lemma {:induction false} CompareTransitive(a: bytes, b: bytes, c: bytes)
    requires Compare(a, b) <= 0 && Compare(b, c) <= 0
    ensures Compare(a, c) <= 0
    ensures Compare(a, b) < 0 || Compare(b, c) < 0 ==> Compare(a, c) < 0
    decreases |a|
  {
    if a != [] && b != [] && c != [] && a[0] == b[0] == c[0] {
      CompareTransitive(a[1..], b[1..], c[1..]);
    }
  }

  /** How many leading bytes a and b share: the prefix that both key
      compression and range reasoning use. */
  function SharedPrefix(a: bytes, b: bytes): (n: nat)
    ensures n <= |a| && n <= |b|
    ensures a[..n] == b[..n]
    ensures n < |a| && n < |b| ==> a[n] != b[n]
  {
    if a == [] || b == [] || a[0] != b[0] then 0
    else
      var n := 1 + SharedPrefix(a[1..], b[1..]);
      assert a[..n] == [a[0]] + a[1..][..n - 1] && b[..n] == [b[0]] + b[1..][..n - 1];
      n
  }

  /** Key k begins with prefix p. */
  predicate HasPrefix(k: bytes, p: bytes) { p <= k }

  lemma SubSlice(s: bytes, a: nat, b: nat, c: nat, d: nat)
    requires a <= b <= |s| && c <= d <= b - a
    ensures s[a..b][c..d] == s[a + c..a + d]
  {
    var t, u := s[a..b][c..d], s[a + c..a + d];
    assert |t| == |u| && forall i :: 0 <= i < |t| ==> t[i] == u[i];
  }

  // ---------------------------------------------------------------- integers

  const MaxUint32: nat := 0xFFFF_FFFF
  const MaxUint64: nat := 0xFFFF_FFFF_FFFF_FFFF

  function Pow256(n: nat): (p: nat) ensures p > 0 { if n == 0 then 1 else 256 * Pow256(n - 1) }

  /** The low n bytes of x, least significant first. */
  function PutLE(x: nat, n: nat): (b: bytes)
    ensures |b| == n
  {
    if n == 0 then [] else [x % 256] + PutLE(x / 256, n - 1)
  }

  function GetLE(b: bytes): nat {
    if b == [] then 0 else b[0] + 256 * GetLE(b[1..])
  }

  lemma {:induction false} PutGetLE(x: nat, n: nat)
    requires x < Pow256(n)
    ensures GetLE(PutLE(x, n)) == x
  {
    if n > 0 {
      PutGetLE(x / 256, n - 1);
      assert PutLE(x, n)[1..] == PutLE(x / 256, n - 1);
    }
  }

  lemma {:induction false} GetPutLE(b: bytes)
    ensures GetLE(b) < Pow256(|b|)
    ensures PutLE(GetLE(b), |b|) == b
  {
    if b != [] {
      GetPutLE(b[1..]);
      assert b == [b[0]] + b[1..];
    }
  }

  lemma Widths()
    ensures Pow256(4) == MaxUint32 + 1
    ensures Pow256(8) == MaxUint64 + 1
  {
    assert Pow256(1) == 256;
    assert Pow256(2) == 256 * 256;
    assert Pow256(3) == 256 * 256 * 256;
    assert Pow256(4) == 256 * 256 * 256 * 256;
    assert Pow256(5) == 256 * Pow256(4);
    assert Pow256(6) == 256 * Pow256(5);
    assert Pow256(7) == 256 * Pow256(6);
  }

  function PutU32(x: nat): (b: bytes) ensures |b| == 4 { PutLE(x, 4) }
  function PutU64(x: nat): (b: bytes) ensures |b| == 8 { PutLE(x, 8) }

  /** Reads at an offset, as the source slices and then decodes. */
  function U32At(b: bytes, at: nat): (x: nat)
    requires at + 4 <= |b|
    ensures x <= MaxUint32
  {
    Widths(); GetPutLE(b[at..at + 4]);
    GetLE(b[at..at + 4])
  }

  function U64At(b: bytes, at: nat): (x: nat)
    requires at + 8 <= |b|
    ensures x <= MaxUint64
  {
    Widths(); GetPutLE(b[at..at + 8]);
    GetLE(b[at..at + 8])
  }

  lemma U32RoundTrip(b: bytes, at: nat, x: nat)
    requires x <= MaxUint32 && at + 4 <= |b| && b[at..at + 4] == PutU32(x)
    ensures U32At(b, at) == x
  {
    Widths(); PutGetLE(x, 4);
  }

  lemma U64RoundTrip(b: bytes, at: nat, x: nat)
    requires x <= MaxUint64 && at + 8 <= |b| && b[at..at + 8] == PutU64(x)
    ensures U64At(b, at) == x
  {
    Widths(); PutGetLE(x, 8);
  }

  // ---------------------------------------------------------------- varints

  /** Base-128 encoding, low group first, high bit set on all but the last byte. */
  function PutUvarint(x: nat): (b: bytes)
    ensures |b| > 0
  {
    if x < 128 then [x] else [x % 128 + 128] + PutUvarint(x / 128)
  }

  /** The decoded value and the bytes consumed; None where the library reports
      a short buffer or a value of more than 64 bits. i is the number of bytes
      already consumed. */
  function ReadUvarint(b: bytes, i: nat): (r: Option<(nat, nat)>)
    ensures r.Some? ==> 0 < r.value.1 <= |b|
    decreases |b|
  {
    if b == [] || i == 10 then None
    else if b[0] < 128 then
      if i == 9 && b[0] > 1 then None else Some((b[0], 1))
    else
      match ReadUvarint(b[1..], i + 1)
      case None => None
      case Some(r) => Some((b[0] - 128 + 128 * r.0, r.1 + 1))
  }

  /** One more than the largest value the last 10 - i bytes can hold. */
  function VarintLimit(i: nat): nat
    requires i <= 9
    decreases 9 - i
  {
    if i == 9 then 2 else 128 * VarintLimit(i + 1)
  }

  lemma {:induction false} UvarintRoundTrip(x: nat, rest: bytes, i: nat)
    requires i <= 9 && x < VarintLimit(i)
    ensures ReadUvarint(PutUvarint(x) + rest, i) == Some((x, |PutUvarint(x)|))
    decreases 9 - i
  {
    if x >= 128 {
      UvarintRoundTrip(x / 128, rest, i + 1);
      assert (PutUvarint(x) + rest)[1..] == PutUvarint(x / 128) + rest;
    }
  }

  lemma VarintHolds64Bits()
    ensures VarintLimit(0) == MaxUint64 + 1
  {
    assert VarintLimit(7) == 128 * 128 * 2;
    assert VarintLimit(5) == 128 * 128 * VarintLimit(7);
    assert VarintLimit(3) == 128 * 128 * VarintLimit(5);
    assert VarintLimit(1) == 128 * 128 * VarintLimit(3);
  }
}
