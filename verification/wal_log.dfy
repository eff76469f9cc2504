/** The write-ahead log as segment files in number order, the last one active. */
module WalLogs {
  import opened Bytes
  import opened Framing
  import opened WalRecords

  // ------------------------------------------------------------ what it holds

  /** The batches of all segments, each segment read to its first bad record. */
  function DecodeSegments(crc: Checksum, segs: seq<bytes>): seq<Batch> {
    if segs == [] then [] else DecodeAll(crc, segs[0]) + DecodeSegments(crc, segs[1..])
  }

  lemma {:induction false} DecodeSegmentsConcat(crc: Checksum, a: seq<bytes>, b: seq<bytes>)
    ensures DecodeSegments(crc, a + b) == DecodeSegments(crc, a) + DecodeSegments(crc, b)
  {
    if a == [] {
      assert a + b == b;
    } else {
      assert (a + b)[1..] == a[1..] + b;
      DecodeSegmentsConcat(crc, a[1..], b);
    }
  }

  function Concat(bss: seq<seq<Batch>>): seq<Batch> {
    if bss == [] then [] else bss[0] + Concat(bss[1..])
  }

  lemma {:induction false} ConcatAppend(bss: seq<seq<Batch>>, bs: seq<Batch>)
    ensures Concat(bss + [bs]) == Concat(bss) + bs
  {
    if bss == [] {
      assert bss + [bs] == [bs] && Concat([bs]) == bs + [];
    } else {
      assert (bss + [bs])[1..] == bss[1..] + [bs];
      ConcatAppend(bss[1..], bs);
    }
  }

  /** Segment i is exactly the encoding of the batches bss[i]. */
  ghost predicate Holds(crc: Checksum, segs: seq<bytes>, bss: seq<seq<Batch>>) {
    && |segs| == |bss|
    && forall i :: 0 <= i < |segs| ==> Loggable(crc, bss[i]) && segs[i] == EncodeAll(crc, bss[i])
  }

  /** A log that holds bss, its last segment possibly torn, reads as bss. */
  lemma {:induction false} SegmentsReadBack(crc: Checksum, segs: seq<bytes>, bss: seq<seq<Batch>>, torn: bytes)
    requires Holds(crc, segs, bss) && segs != [] && TornTail(crc, torn)
    ensures var crashed := segs[|segs| - 1 := segs[|segs| - 1] + torn];
            DecodeSegments(crc, crashed) == NormalizedAll(Concat(bss))
    decreases |segs|
  {
    hide Decode, Encode, DecodeAll, EncodeAll, Normalized, Loggable;
    var crashed := segs[|segs| - 1 := segs[|segs| - 1] + torn];
    assert Concat(bss) == bss[0] + Concat(bss[1..]);
    assert NormalizedAll(Concat(bss)) == NormalizedAll(bss[0]) + NormalizedAll(Concat(bss[1..]));
    if |segs| == 1 {
      LogReadsBack(crc, bss[0], torn);
      assert crashed[1..] == [] && Concat(bss[1..]) == [];
    } else {
      LogReadsBack(crc, bss[0], []);
      assert segs[0] + [] == segs[0];
      assert crashed[1..] == segs[1..][|segs| - 2 := segs[1..][|segs| - 2] + torn];
      SegmentsReadBack(crc, segs[1..], bss[1..], torn);
    }
  }

  /** Segment by segment. */
  function DecodeEach(crc: Checksum, segs: seq<bytes>): seq<seq<Batch>> {
    seq(|segs|, i requires 0 <= i < |segs| => DecodeAll(crc, segs[i]))
  }

  lemma {:induction false} EachIsAll(crc: Checksum, segs: seq<bytes>)
    ensures Concat(DecodeEach(crc, segs)) == DecodeSegments(crc, segs)
  {
    hide DecodeAll;
    if segs != [] {
      assert DecodeEach(crc, segs)[1..] == DecodeEach(crc, segs[1..]);
      EachIsAll(crc, segs[1..]);
    }
  }

  /** Each segment reads as its own batches. */
  lemma SegmentReadsBack(crc: Checksum, segs: seq<bytes>, bss: seq<seq<Batch>>, torn: bytes, i: nat)
    requires Holds(crc, segs, bss) && TornTail(crc, torn) && i < |segs|
    ensures DecodeAll(crc, segs[|segs| - 1 := segs[|segs| - 1] + torn][i]) == NormalizedAll(bss[i])
  {
    if i == |segs| - 1 {
      LogReadsBack(crc, bss[i], torn);
    } else {
      LogReadsBack(crc, bss[i], []);
      assert segs[i] + [] == segs[i];
    }
  }

  lemma {:induction false} EncodeAllAppend(crc: Checksum, bs: seq<Batch>, b: Batch)
    requires Encode(crc, b).Raw?
    ensures EncodeAll(crc, bs + [b]) == EncodeAll(crc, bs) + Encode(crc, b).raw
  {
    hide Encode;
    if bs == [] {
      assert bs + [b] == [b] && [b][1..] == [];
      assert EncodeAll(crc, []) == [];
    } else {
      assert (bs + [b])[1..] == bs[1..] + [b];
      EncodeAllAppend(crc, bs[1..], b);
    }
  }

  // ---------------------------------------------------------------- appending

  class WAL {
    const crc: Checksum
    const maxSegmentSize: nat
    var segments: seq<bytes>
    ghost var batches: seq<seq<Batch>>

    ghost predicate Valid()
      reads this
    {
      segments != [] && Holds(crc, segments, batches)
    }

    constructor (crc: Checksum, maxSegmentSize: nat)
      ensures Valid() && this.crc == crc && segments == [[]] && batches == [[]]
    {
      this.crc, this.maxSegmentSize := crc, maxSegmentSize;
      segments, batches := [[]], [[]];
    }

    /** A rejected batch changes nothing; any other is the last thing the log
        reads, in the active segment or in a new one. */
    method Append(batch: Batch) returns (error: Option<EncodeError>)
      requires Valid() && Fits(batch)
      modifies this
      ensures Valid() && error == Rejection(batch)
      ensures error.Some? ==> segments == old(segments) && batches == old(batches)
      ensures error.None? ==> Concat(batches) == Concat(old(batches)) + [batch]
      ensures error.None? ==> |batches| == if |old(segments)[|old(segments)| - 1]| + RecordSize(batch) > maxSegmentSize
                                           then |old(batches)| + 1 else |old(batches)|
      ensures error.None? ==> |segments[|segments| - 1]| == if |old(segments)[|old(segments)| - 1]| + RecordSize(batch) > maxSegmentSize
                                                            then RecordSize(batch) else |old(segments)[|old(segments)| - 1]| + RecordSize(batch)
    {
      hide Frame, Body;
      var r := EncodeRecord(crc, batch);
      if r.Rejected? { return Some(r.error); }
      EncodedSize(crc, batch);
      AppendRecord(batch, r.raw);
      return None;
    }

    method AppendRecord(ghost batch: Batch, record: bytes)
      requires Valid() && Fits(batch) && Encode(crc, batch) == Raw(record)
      modifies this
      ensures Valid() && Concat(batches) == Concat(old(batches)) + [batch]
      ensures |batches| == if |old(segments)[|old(segments)| - 1]| + |record| > maxSegmentSize
                           then |old(batches)| + 1 else |old(batches)|
      ensures |segments[|segments| - 1]| == if |old(segments)[|old(segments)| - 1]| + |record| > maxSegmentSize
                                            then |record| else |old(segments)[|old(segments)| - 1]| + |record|
    {
      hide Encode, Fits, EncodeAll, Concat;
      if |segments[|segments| - 1]| + |record| > maxSegmentSize {
        Rotate();
      }
      LastAppend(batches, batch);
      EncodeAllAppend(crc, batches[|batches| - 1], batch);
      ghost var n := |segments| - 1;
      segments := segments[|segments| - 1 := segments[|segments| - 1] + record];
      batches := batches[n := batches[n] + [batch]];
    }

    method Rotate()
      requires Valid()
      modifies this
      ensures Valid() && |batches| == |old(batches)| + 1 && Concat(batches) == Concat(old(batches))
      ensures segments[|segments| - 1] == []
    {
      hide Encode, Fits;
      ConcatAppend(batches, []);
      assert Concat(batches) + [] == Concat(batches);
      segments, batches := segments + [[]], batches + [[]];
    }
  }

  lemma {:induction false} LastAppend(bss: seq<seq<Batch>>, b: Batch)
    requires bss != []
    ensures Concat(bss[|bss| - 1 := bss[|bss| - 1] + [b]]) == Concat(bss) + [b]
  {
    var n := |bss| - 1;
    var front, last := bss[..n], bss[n];
    assert bss == front + [last] && bss[n := last + [b]] == front + [last + [b]];
    ConcatAppend(front, last);
    ConcatAppend(front, last + [b]);
    assert Concat(front) + (last + [b]) == Concat(front) + last + [b];
  }

  // --------------------------------------------------------------- truncation

  /** SeqStart + count - 1 in 64-bit arithmetic. */
  function BatchMax(b: Batch): nat {
    (b.seqStart + |b.records| - 1) % (MaxUint64 + 1)
  }

  /** The largest sequence number of a segment, or None if it does not decode to
      its end. */
  function MaxSeqOf(crc: Checksum, data: bytes): Option<nat>
    decreases |data|
  {
    if data == [] then Some(0)
    else
      match Decode(crc, data)
      case Ok(b, n) =>
        (match MaxSeqOf(crc, data[n..])
         case None => None
         case Some(m) => Some(if BatchMax(b) > m then BatchMax(b) else m))
      case _ => None
  }

  /** How many leading segments may go: None once one does not decode, and
      never the last. */
  function Deletable(crc: Checksum, segs: seq<bytes>, cutoff: nat): (d: Option<nat>)
    ensures d.Some? && segs != [] ==> d.value < |segs|
  {
    if |segs| <= 1 then Some(0)
    else
      match MaxSeqOf(crc, segs[0])
      case None => None
      case Some(m) =>
        if m > cutoff then Some(0)
        else
          match Deletable(crc, segs[1..], cutoff)
          case None => None
          case Some(d) => Some(d + 1)
  }

  /** What the source's truncation removes: nothing when a segment it looks at
      is corrupt. */
  function Truncated(crc: Checksum, segs: seq<bytes>, cutoff: nat): (d: nat)
    ensures segs != [] ==> d < |segs|
  {
    match Deletable(crc, segs, cutoff)
    case None => 0
    case Some(d) => d
  }

  /** One more segment looked at. */
  lemma NextSegment(crc: Checksum, segs: seq<bytes>, i: nat, cutoff: nat)
    requires i < |segs|
    ensures Plus(i, Deletable(crc, segs[i..], cutoff)) ==
              if i == |segs| - 1 then Some(i)
              else
                match MaxSeqOf(crc, segs[i])
                case None => None
                case Some(m) => if m > cutoff then Some(i) else Plus(i + 1, Deletable(crc, segs[i + 1..], cutoff))
  {
    hide MaxSeqOf;
    assert segs[i..][1..] == segs[i + 1..];
  }

  method Truncate(crc: Checksum, segs: seq<bytes>, cutoffSeq: nat) returns (left: seq<bytes>)
    ensures left == if segs == [] then [] else segs[Truncated(crc, segs, cutoffSeq)..]
  {
    hide Deletable, MaxSeqOf;
    var deletable := 0;
    assert segs[0..] == segs;
    for i := 0 to |segs|
      invariant deletable == i && (segs != [] ==> i < |segs|)
      invariant Deletable(crc, segs, cutoffSeq) == Plus(i, Deletable(crc, segs[i..], cutoffSeq))
    {
      NextSegment(crc, segs, i, cutoffSeq);
      if i == |segs| - 1 { break; }
      var m := SegmentMax(crc, segs[i]);
      if m == None { return segs; }
      if m.value > cutoffSeq { break; }
      deletable := deletable + 1;
    }
    return segs[deletable..];
  }

  function Plus(i: nat, d: Option<nat>): Option<nat> {
    match d
    case None => None
    case Some(x) => Some(i + x)
  }

  method SegmentMax(crc: Checksum, data: bytes) returns (m: Option<nat>)
    ensures m == MaxSeqOf(crc, data)
  {
    hide Decode;
    var maxSeq, offset := 0, 0;
    assert data[0..] == data;
    while offset < |data|
      invariant offset <= |data|
      invariant MaxSeqOf(crc, data) == AtLeast(maxSeq, MaxSeqOf(crc, data[offset..]))
      decreases |data| - offset
    {
      var d := DecodeRecord(crc, data[offset..]);
      if !d.Ok? { return None; }
      assert data[offset..][d.n..] == data[offset + d.n..];
      if BatchMax(d.batch) > maxSeq { maxSeq := BatchMax(d.batch); }
      offset := offset + d.n;
    }
    return Some(maxSeq);
  }

  function AtLeast(low: nat, m: Option<nat>): Option<nat> {
    match m
    case None => None
    case Some(x) => Some(if low > x then low else x)
  }

  /** The batches a replay with this cutoff does not skip. */
  function Kept(bs: seq<Batch>, cutoff: nat): seq<Batch> {
    if bs == [] then []
    else (if BatchMax(bs[0]) > cutoff then [bs[0]] else []) + Kept(bs[1..], cutoff)
  }

  lemma {:induction false} KeptConcat(a: seq<Batch>, b: seq<Batch>, cutoff: nat)
    ensures Kept(a + b, cutoff) == Kept(a, cutoff) + Kept(b, cutoff)
  {
    if a == [] {
      assert a + b == b;
    } else {
      assert (a + b)[1..] == a[1..] + b;
      KeptConcat(a[1..], b, cutoff);
    }
  }

  lemma {:induction false} NothingKept(crc: Checksum, data: bytes, cutoff: nat)
    requires MaxSeqOf(crc, data).Some? && MaxSeqOf(crc, data).value <= cutoff
    ensures Kept(DecodeAll(crc, data), cutoff) == []
    decreases |data|
  {
    if data != [] {
      var d := Decode(crc, data);
      NothingKept(crc, data[d.n..], cutoff);
      assert DecodeAll(crc, data) == [d.batch] + DecodeAll(crc, data[d.n..]);
    }
  }

  /** Truncation keeps replay: for any bytes in any segments and any cutoff, what
      remains replays past that cutoff to the same batches as before. */
  lemma {:induction false} TruncationKeepsReplay(crc: Checksum, segs: seq<bytes>, cutoff: nat)
    requires segs != []
    ensures var left := segs[Truncated(crc, segs, cutoff)..];
            && left != [] && left[|left| - 1] == segs[|segs| - 1]
            && Kept(DecodeSegments(crc, left), cutoff) == Kept(DecodeSegments(crc, segs), cutoff)
    decreases |segs|
  {
    hide DecodeAll, Kept, MaxSeqOf;
    var d := Truncated(crc, segs, cutoff);
    if d == 0 {
      assert segs[0..] == segs;
    } else {
      NothingKept(crc, segs[0], cutoff);
      TruncationKeepsReplay(crc, segs[1..], cutoff);
      assert segs[1..][d - 1..] == segs[d..];
      KeptConcat(DecodeAll(crc, segs[0]), DecodeSegments(crc, segs[1..]), cutoff);
    }
  }

  /** Every intermediate deletion keeps it too: any shorter prefix of what may
      go can be gone already. */
  lemma {:induction false} PartialTruncationKeepsReplay(crc: Checksum, segs: seq<bytes>, cutoff: nat, j: nat)
    requires segs != [] && j <= Truncated(crc, segs, cutoff)
    ensures Kept(DecodeSegments(crc, segs[j..]), cutoff) == Kept(DecodeSegments(crc, segs), cutoff)
    decreases |segs|
  {
    if j == 0 {
      assert segs[0..] == segs;
    } else {
      NothingKept(crc, segs[0], cutoff);
      PartialTruncationKeepsReplay(crc, segs[1..], cutoff, j - 1);
      assert segs[1..][j - 1..] == segs[j..];
      KeptConcat(DecodeAll(crc, segs[0]), DecodeSegments(crc, segs[1..]), cutoff);
    }
  }

  // ------------------------------------------------ exactly the covered prefix

  /** No batch's last number, in 64 bits, is past the cutoff. */
  ghost predicate Covers(bs: seq<Batch>, cutoff: nat) {
    forall b :: b in bs ==> (b.seqStart + |b.records| - 1) % 0x1_0000_0000_0000_0000 <= cutoff
  }

  /** Replay skips a segment whole exactly when the cutoff covers it. */
  lemma {:induction false} KeptNone(bs: seq<Batch>, cutoff: nat)
    ensures Kept(bs, cutoff) == [] <==> Covers(bs, cutoff)
  {
    if bs != [] {
      KeptNone(bs[1..], cutoff);
      assert bs == [bs[0]] + bs[1..];
      assert MaxUint64 + 1 == 0x1_0000_0000_0000_0000;
    }
  }

  /** Readable to its end exactly when nothing follows its batches; then its largest
      number is within a cutoff exactly when the cutoff covers them. */
  lemma {:induction false} MaxOfSegment(crc: Checksum, bs: seq<Batch>, junk: bytes, cutoff: nat)
    requires Loggable(crc, bs) && !Decode(crc, junk).Ok?
    ensures MaxSeqOf(crc, EncodeAll(crc, bs) + junk).Some? <==> junk == []
    ensures junk == [] ==> (MaxSeqOf(crc, EncodeAll(crc, bs) + junk).value <= cutoff <==> Covers(bs, cutoff))
    decreases |bs|
  {
    hide Decode, Encode, Fits;
    if bs == [] {
      assert EncodeAll(crc, bs) + junk == junk;
    } else {
      assert bs[0] in bs;
      var raw, rest := Encode(crc, bs[0]).raw, EncodeAll(crc, bs[1..]) + junk;
      RoundTrip(crc, bs[0], rest);
      MaxOfSegment(crc, bs[1..], junk, cutoff);
      assert EncodeAll(crc, bs) + junk == raw + rest;
      assert BatchMax(Normalized(bs[0])) == BatchMax(bs[0]);
      MaxStep(crc, raw, rest, Normalized(bs[0]));
      CoversStep(bs, cutoff);
    }
  }

  lemma MaxStep(crc: Checksum, raw: bytes, rest: bytes, b: Batch)
    requires Decode(crc, raw + rest) == Ok(b, |raw|)
    ensures MaxSeqOf(crc, raw + rest) == AtLeast(BatchMax(b), MaxSeqOf(crc, rest))
  {
    assert (raw + rest)[|raw|..] == rest;
    NothingToDecode(crc);
  }

  lemma CoversStep(bs: seq<Batch>, cutoff: nat)
    requires bs != []
    ensures Covers(bs, cutoff) <==> BatchMax(bs[0]) <= cutoff && Covers(bs[1..], cutoff)
  {
    assert bs == [bs[0]] + bs[1..];
    assert MaxUint64 + 1 == 0x1_0000_0000_0000_0000;
  }

  lemma NothingToDecode(crc: Checksum)
    ensures !Decode(crc, []).Ok?
  {
  }

  /** What truncation deletes is the longest prefix of segments the cutoff covers,
      short of the last, which may hold anything. */
  lemma {:induction false} LongestCovered(crc: Checksum, segs: seq<bytes>, bss: seq<seq<Batch>>, cutoff: nat)
    requires segs != [] && Holds(crc, segs[..|segs| - 1], bss)
    ensures Deletable(crc, segs, cutoff) == Some(Truncated(crc, segs, cutoff))
    ensures var d := Truncated(crc, segs, cutoff);
            && d <= |bss| && (forall i :: 0 <= i < d ==> Covers(bss[i], cutoff))
            && (d < |bss| ==> !Covers(bss[d], cutoff))
    decreases |segs|
  {
    hide Decode, MaxSeqOf, Covers, EncodeAll, Loggable;
    if |segs| > 1 {
      NothingToDecode(crc);
      assert segs[0] == segs[..|segs| - 1][0] && EncodeAll(crc, bss[0]) + [] == segs[0];
      MaxOfSegment(crc, bss[0], [], cutoff);
      assert segs[1..][..|segs[1..]| - 1] == segs[..|segs| - 1][1..];
      LongestCovered(crc, segs[1..], bss[1..], cutoff);
    }
  }

  /** A segment that does not read to its end, reached before one that is not
      covered, keeps every segment. */
  lemma {:induction false} UnreadableKeepsAll(crc: Checksum, segs: seq<bytes>, bss: seq<seq<Batch>>, junk: bytes, cutoff: nat)
    requires bss != [] && |bss| < |segs| && junk != [] && !Decode(crc, junk).Ok?
    requires forall i :: 0 <= i < |bss| ==> Loggable(crc, bss[i])
    requires forall i :: 0 <= i < |bss| - 1 ==> segs[i] == EncodeAll(crc, bss[i]) && Covers(bss[i], cutoff)
    requires segs[|bss| - 1] == EncodeAll(crc, bss[|bss| - 1]) + junk
    ensures Truncated(crc, segs, cutoff) == 0 && Deletable(crc, segs, cutoff) == None
    decreases |segs|
  {
    hide Decode, MaxSeqOf, Covers, EncodeAll, Loggable;
    if |bss| == 1 {
      MaxOfSegment(crc, bss[0], junk, cutoff);
    } else {
      NothingToDecode(crc);
      assert EncodeAll(crc, bss[0]) + [] == segs[0];
      MaxOfSegment(crc, bss[0], [], cutoff);
      UnreadableKeepsAll(crc, segs[1..], bss[1..], junk, cutoff);
    }
  }
}
