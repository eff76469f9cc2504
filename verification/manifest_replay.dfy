/** Rebuilding the version set from the manifest bytes. */
module ManifestReplay {
  import opened Bytes
  import opened Framing
  import opened VersionSets
  import opened ManifestRecords

  /** Applies every record up to the first that does not decode. */
  method ReplayManifest(crc: Checksum, data: bytes) returns (vs: VersionSet)
    ensures fresh(vs) && fresh(vs.levels) && vs.Valid()
    ensures vs.Abs() == Replay(EmptyVersion, DecodeAll(crc, data))
  {
    hide Decode, Add, Remove, Cutoff;
    vs := new VersionSet();
    var offset := 0;
    ghost var done := [];
    assert data[0..] == data;
    while offset < |data|
      invariant offset <= |data| && fresh(vs) && fresh(vs.levels) && vs.Valid()
      invariant done + DecodeAll(crc, data[offset..]) == DecodeAll(crc, data)
      invariant vs.Abs() == Replay(EmptyVersion, done)
      decreases |data| - offset
    {
      var d := DecodeRecord(crc, data[offset..]);
      if !d.Ok? { break; }
      DecodedOne(crc, data, offset, done, d.edit, d.n);
      assert (done + [d.edit])[..|done|] == done;
      match d.edit {
        case AddSSTable(meta) => var _ := vs.AddTable(meta);
        case RemoveSSTable(fileNum) => vs.RemoveTable(fileNum);
        case SetWALCutoff(num) => vs.SetWALCutoff(num);
      }
      done := done + [d.edit];
      offset := offset + d.n;
    }
    assert DecodeAll(crc, data[offset..]) == [];
    assert done + [] == done;
  }

  lemma DecodedOne(crc: Checksum, data: bytes, offset: nat, done: seq<Edit>, e: Edit, n: nat)
    requires offset <= |data| && Decode(crc, data[offset..]) == Ok(e, n)
    requires done + DecodeAll(crc, data[offset..]) == DecodeAll(crc, data)
    ensures done + [e] + DecodeAll(crc, data[offset + n..]) == DecodeAll(crc, data)
  {
    assert data[offset..][n..] == data[offset + n..];
    assert done + ([e] + DecodeAll(crc, data[offset + n..])) == done + [e] + DecodeAll(crc, data[offset + n..]);
  }

  /** A manifest of whole records replays to the edits it was written from, even
      when its last record was cut short. */
  lemma ReplayReadsBack(crc: Checksum, es: seq<Edit>, torn: bytes)
    requires (forall e :: e in es ==> InRange(e)) && TornTail(crc, torn)
    ensures Replay(EmptyVersion, DecodeAll(crc, EncodeAll(crc, es) + torn)) == Replay(EmptyVersion, es)
  {
    LogReadsBack(crc, es, torn);
  }
}
