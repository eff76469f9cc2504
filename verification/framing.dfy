/** The frame both logs share: a checksum, a length, and that many bytes. The
    checksum is any function of the bytes it covers. */
module Framing {
  import opened Bytes

  type uint32 = x: int | 0 <= x < 0x1_0000_0000
  type Checksum = bytes -> uint32

  const TwoTo32: nat := 0x1_0000_0000

  function Frame(crc: Checksum, body: bytes): (raw: bytes)
    ensures |raw| == 8 + |body|
  {
    PutU32(crc(PutU32(|body|) + body)) + PutU32(|body|) + body
  }

  /** Reading a whole frame back, whatever follows it. */
  lemma FrameReads(crc: Checksum, body: bytes, rest: bytes)
    requires 8 + |body| < TwoTo32
    ensures var data := Frame(crc, body) + rest;
            && U32At(data, 4) == |body|
            && data[8..8 + |body|] == body
            && U32At(data, 0) == crc(data[4..8 + |body|])
  {
    var data := Frame(crc, body) + rest;
    var sum := crc(PutU32(|body|) + body);
    assert data[0..4] == PutU32(sum);
    assert data[4..8] == PutU32(|body|);
    U32RoundTrip(data, 0, sum);
    U32RoundTrip(data, 4, |body|);
    assert data[4..8 + |body|] == PutU32(|body|) + body;
  }

  /** A frame cut short still shows its full length, or not even its length. */
  lemma TornFrameReads(crc: Checksum, body: bytes, torn: bytes)
    requires 8 + |body| < TwoTo32 && torn < Frame(crc, body)
    ensures |torn| < 8 + |body|
    ensures |torn| >= 8 ==> U32At(torn, 4) == |body|
  {
    if |torn| >= 8 {
      var raw := Frame(crc, body);
      assert raw[4..8] == PutU32(|body|);
      assert torn[4..8] == raw[4..8];
      U32RoundTrip(torn, 4, |body|);
    }
  }

  /** Writes a placeholder, the length and the body, then patches the checksum. */
  method Seal(crc: Checksum, body: bytes) returns (raw: bytes)
    ensures raw == Frame(crc, body)
  {
    raw := PutU32(0);
    raw := raw + PutU32(|body|);
    raw := raw + body;
    assert raw[4..] == PutU32(|body|) + body;
    var sum := PutU32(crc(raw[4..]));
    raw := sum + raw[4..];
  }
}
