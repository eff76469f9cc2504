# VernKV: a verified model

A model, in Dafny 4.11, of the storage path of the VernKV key-value store, from the bytes on disk up to what a reader
sees, with proofs that each layer keeps what the one above relies on. `dafny verify dfyconfig.toml` checks all of it.

Everything is judged by one abstract object, the history: the batches ever written, numbered on from 1. A read of a key
at a number returns the newest write to that key at or below the number, a delete counting as absent.

- `bytes`, `internal_key`, `versions`, `history`: byte strings, keys and their order, what a read means, the history.
- `skiplist`, `version_filter`, `merge_iterator`, `reads`: the memory index as linked nodes, live filtered iterators,
  the k-way merge, point reads and scans.
- `block`, `table`, `reader`, `filter`, `cache`, `cached_reads`: the table format, its builder and iterator, the Bloom
  filter, the block cache.
- `framing`, `wal_record`, `wal_log`, `manifest_record`, `manifest_replay`, `version_set`: both logs and the version set.
- `table_meta`, `flush`, `compaction`, `compaction_commit`, `recovery`, `snapshots`: the procedures.
- `engine` is the whole as a step machine; a crash may fall between any two steps. `engine_invariant` says what every
  step keeps, `engine_steps`, `engine_write`, `engine_flush`, `engine_compaction` and `engine_recovery` prove it step by
  step, and `engine_runs`, `engine_theorems`, `engine_numbers`, `engine_closure` and `crash_recovery` draw the conclusions
  over all runs. `picking` says which tables a compaction takes and `recovery_pages` what recovery pages out. `database`
  and `compact_level` tie the imperative methods to the steps, and `picking_gap` has runs on which a deleted key comes back.

## What the proofs found

- Overlap between levels is judged on encoded internal keys as plain bytes (engine/version_set.go:146), and the
  little-endian trailer decides between versions of one user key. An older put can stay out of the compaction that drops
  its delete, and the deleted key comes back. `OverlapMissesOlderVersion` gives a run on which it happens; `CompactLevel`
  says exactly when a compaction is invisible. The engine's compaction step carries that condition as a hypothesis, and
  `ClosedFilesSuffice` gives one that looks at the tables alone.
- For the same reason even a table whose user keys reach past the picked range on both sides can stay out of a
  compaction, when one user key is another followed by a byte below three. `EnclosingIsInput` says exactly when such a
  table is taken, `EnclosingTextIsInput` that it always is for text, and `EnclosingTableLeftOut` gives a run where it is not.
- After a manifest rewrite the replayed set of obsolete numbers is no longer a superset of the live one
  (engine/db.go:624-651), so a crash before the next clean-up leaves those files behind. `ObsoleteSuperset` states exactly
  when it is one, at every point of every run.
- Cache usage is within capacity after every put exactly when the capacity is not negative (`UsageBound`).
- Recovery records a paged table's size without its footer (engine/recovery.go:209), flush with it (engine/flush.go:73-76).
- The documented order of a flush installs the version after the manifest (Invariants.md, Flush, point 3); the code adds
  the table to the version first (engine/db.go:557-575). Both happen under one lock, and the model follows the code.
- The documentation says recovery discards the log after the first corruption (Invariants.md, WAL, point 5); the code
  goes on with the next segment (engine/recovery.go:72-84). The model follows the code.

## Model

| member | source | states |
|---|---|---|
| `InternalKeys.ComparatorOnEncodings` | internal/comparator.go:8-37 | On encoded keys the comparator is exactly: user key ascending, number descending, value before tombstone; it calls two encodings equal only when the keys are the same. |
| `InternalKeys.ComparatorFlips` | internal/comparator.go:8-37 | On arbitrary byte strings swapping the arguments flips the sign, and 0 means equal up to the zero trailer a short key reads as. |
| `InternalKeys.ComparatorTransitive` | internal/comparator.go:8-37 | Transitive on arbitrary byte strings, strict as soon as one step is: with the flip law, a total preorder. |
| `InternalKeys.EncodeDecode` | internal/internal_key.go:23-59 | Decoding an encoded key of a number below 2^56 gives the key back. |
| `InternalKeys.DecodeEncode` | internal/internal_key.go:37-59 | Whatever decodes is the encoding of what it decodes to, so too short or badly typed keys are the only rejects. |
| `InternalKeys.EncodeThenExtract` | internal/internal_key.go:61-78 | The partial readers find the user key, number and type an encoding was made from. |
| `InternalKeys.KeyLayout` | internal/internal_key.go:23-35 | The bytes of an encoded key: the user key, one byte for the kind (1 for a value, 2 for a tombstone), seven bytes of number, low byte first. |
| `InternalKeys.RawOrderDisagrees` | internal/comparator.go:8-37 | Plain byte order is a different order: a delete sorts before the put it supersedes under the comparator, after it byte by byte. |
| `Versions.SuffixCompletion` | engine/recovery.go:86-106 | Entries that answer like the whole history still do after every history entry above any cutoff is put back: replay cannot revive what compaction dropped. |
| `Versions.AnswerAfterWrite` | engine/db.go:161-200 | A write numbered above everything present is the answer for every read that can see it and changes no other. |
| `Versions.LatestAnswer` | engine/db.go:278-294 | Reading without a snapshot is reading at any number nothing exceeds. |
| `Merging.EmissionIsSortedUnion` | iterators/merge_iterator.go:61-93 | Without collapsing, a merge of any number of children that agree on shared keys is the strictly sorted union. |
| `Merging.EmissionIsHeads` | iterators/merge_iterator.go:95-107 | Collapsing, it is, in order, exactly the highest-numbered version of every user key. |
| `Merging.MergeIterator.SeekToFirst` | iterators/merge_iterator.go:32-39 | After a seek the iterator has the whole merge left to show. |
| `Merging.MergeIterator.Next` | iterators/merge_iterator.go:41-46 | Each step shows exactly the next entry of that merge, and the end stays the end. |
| `Merging.MergeIterator.Advance` | iterators/merge_iterator.go:61-108 | One advance takes the least key of all children, drops its duplicates and, when collapsing, its older versions. |
| `Merging.MergeIterator.Smallest` | iterators/merge_iterator.go:61-82 | The child picked holds the least entry left anywhere, and none is picked only when all are exhausted. |
| `Merging.MergeIterator.SkipKey` | iterators/merge_iterator.go:87-93 | The current entry leaves every child and nothing else does. |
| `Merging.MergeIterator.SkipVersions` | iterators/merge_iterator.go:95-107 | Every further version of the user key leaves every child and nothing else does. |
| `VersionSets.VersionSet.AddTable` | engine/version_set.go:39-57 | Fails exactly for a level that does not exist; otherwise appends at level 0 and inserts by smallest key below it. |
| `VersionSets.VersionSet.RemoveTable` | engine/version_set.go:59-76 | Marks the number obsolete and takes the first table of that number out of the first level that holds one. |
| `VersionSets.VersionSet.SetWALCutoff` | engine/version_set.go:78-85 | The cutoff moves to the number given or not at all, never back. |
| `VersionSets.VersionSet.GetAllTables` | engine/version_set.go:87-96 | All tables, level by level. |
| `VersionSets.VersionSet.GetOverlappingInputs` | engine/version_set.go:139-152 | The tables of a level whose key range meets the given one as plain bytes, in order. |
| `Picking.OverlappingIff` | engine/version_set.go:139-152 | Every table of the level is kept as often as it is there exactly when, byte by byte, its largest key is not below the start and its smallest not above the end; otherwise not at all. |
| `VersionSets.PlaceKeepsOrder` | engine/version_set.go:39-57 | Insertion keeps a level ordered by smallest key and adds only the new table. |
| `VersionSets.AddTables` | engine/version_set.go:39-57 | A new table joins the live ones, moves none, keeps the levels well formed and numbers distinct. |
| `VersionSets.RemoveTables` | engine/version_set.go:59-76 | With distinct numbers, removal takes out exactly the table of that number. |
| `VersionSets.ReplayAppend` | engine/manifest_replay.go:19-49 | Replaying a log in two parts is replaying it in one. |
| `VersionSets.RewriteReplays` | engine/db.go:624-651 | The rewritten manifest replays to the same levels, in the same order, and the same cutoff, with nothing obsolete. |
| `Reads.RangeCheckSound` | engine/db.go:312-319 | A table the user key range check skips holds no version of the key. |
| `Reads.Candidates` | engine/db.go:308-333 | No table that holds the key is left out. |
| `Reads.Lookup` | engine/db.go:337-357 | Walking the collapsed merge and stopping past the key finds the newest version, a tombstone reading as absent. |
| `Reads.GetWithOptions` | engine/db.go:278-358 | Over any sources that agree, a read under a snapshot returns the newest version it can see, and a read without one the newest of all. |
| `Reads.DbIterator.SkipTombstones` | engine/iterator.go:31-40 | Leaves the iterator at the next live pair, losing none. |
| `Reads.DbIterator.SeekToFirst` | engine/iterator.go:21-24 | Shows the collapsed merge without its tombstones. |
| `Reads.DbIterator.Next` | engine/iterator.go:26-29 | Moves on exactly one live pair. |
| `Reads.ScanAgreesWithGet` | engine/iterator.go:21-40 | Over any sources that agree and any snapshot, whatever they hold above it, a scan shows in strictly ascending order exactly the pairs that point reads under the same snapshot return, and a clipped scan exactly those of the keys asked for. |
| `Reads.LiveHeads` | engine/iterator.go:31-40 | A key is shown with a value exactly when that is the newest version's value. |
| `Reads.ScanAscends` | engine/iterator.go:21-40 | Each key is shown once, in strictly ascending byte order. |
| `Reads.ClippedScan` | engine/scan_iterator.go:38-62 | A range or prefix scan is the full scan restricted to the keys asked for, in the same order. |
| `Reads.NewIterator` | engine/db.go:413-467 | The memtables and every table, each behind a version filter under a snapshot, merged and collapsed. |
| `Reads.ScanIterator.SeekToFirst` | engine/scan_iterator.go:14-19 | Shows exactly the clipped scan. |
| `Reads.ScanIterator.Next` | engine/scan_iterator.go:21-24 | Moves on exactly one pair of the clipped scan. |
| `Reads.ScanIterator.Advance` | engine/scan_iterator.go:38-62 | Skips what is outside the prefix or before the start and stops for good at the end bound, losing nothing in range. |
| `Skiplists.Skiplist.Insert` | memtable/skiplist.go:48-91 | For any random height the list afterwards holds what sorted insertion gives, the last value per internal key; either no node moved or exactly one was spliced in. |
| `Skiplists.Skiplist.Descend` | memtable/skiplist.go:53-58 | Both nested descents end, on each level at the last node before the key. |
| `Skiplists.Skiplist.LinkIn` | memtable/skiplist.go:78-87 | Relinking level by level keeps every chain complete, with the new node at its place on each level it reaches. |
| `Skiplists.Skiplist.Overwrite` | memtable/skiplist.go:62-67 | An existing key gets the new value in place, the byte size changes by the difference, and no link moves. |
| `Skiplists.Skiplist.RandomLevel` | memtable/skiplist.go:40-46 | A height between one and twelve, whatever the coins say. |
| `Skiplists.InsertSortedFacts` | memtable/skiplist.go:48-91 | Sorted insertion keeps strict order, adds the entry and keeps every other key. |
| `Skiplists.ContentsSorted` | memtable/skiplist.go:48-91 | Level 0 is strictly sorted by the comparator, the count is the number of entries and the size in bytes their exact sum. |
| `Skiplists.LevelsAreChains` | memtable/skiplist.go:48-91 | Following level i from the head visits exactly the nodes of height above i in order, so each level's chain is a subsequence of the one below. |
| `Skiplists.Iterator.Seek` | memtable/skiplist.go:126-134 | Lands on the first entry not before the target, or past the end when there is none. |
| `Skiplists.Iterator.SeekToFirst` | memtable/skiplist.go:121-123 | Has the whole list left to show. |
| `Skiplists.Iterator.Next` | memtable/skiplist.go:137-141 | Moves on exactly one entry. |
| `VersionFilters.VersionFilterIterator.Advance` | iterators/version_filter_iterator.go:48-70 | Buffers the next visible entry and stands one step beyond it, dropping nothing visible. |
| `VersionFilters.VersionFilterIterator.SeekToFirst` | iterators/version_filter_iterator.go:26-29 | Shows exactly the visible entries of the list, in order. |
| `VersionFilters.VersionFilterIterator.Next` | iterators/version_filter_iterator.go:31-33 | Moves on exactly one visible entry. |
| `VersionFilters.InsertIsUnseen` | iterators/version_filter_iterator.go:48-70 | An entry above the read number leaves what is still visible unchanged wherever the iterator stands. |
| `VersionFilters.InsertDuring` | memtable/skiplist.go:84-87 | An insert numbered above the read number changes nothing a live filter has still to show. |
| `VersionFilters.Interleave` | iterators/version_filter_iterator.go:48-70 | Under any schedule of steps and such inserts the filter yields exactly what was visible when it started, in order, nothing lost, repeated or added. |
| `Caches.LRUCache.Get` | internal/cache/lru.go:31-40 | Hits exactly the keys held and moves the hit to the front. |
| `Caches.LRUCache.Put` | internal/cache/lru.go:42-65 | What is held afterwards is the longest run of most recently used pairs that fits, the new pair first. |
| `Caches.LRUCache.Evict` | internal/cache/lru.go:67-75 | Drops from the back until usage fits, keeping index, list and usage in step. |
| `Caches.FitIsLongest` | internal/cache/lru.go:67-75 | What eviction keeps is the longest prefix within capacity. |
| `Caches.UsageBound` | internal/cache/lru.go:67-75 | After a put, usage is within capacity exactly when the capacity is not negative. |
| `Caches.HitIsLastPut` | internal/cache/lru.go:31-65 | In every run of gets and puts a hit returns the value last put under its key. |
| `Filters.BloomFilter.CreateFilter` | sstable/filter.go:29-61 | Sets exactly the bits some key's wrapping 32-bit probe sequence reaches, and records the probe count. |
| `Filters.BloomFilter.KeyMayMatch` | sstable/filter.go:63-86 | Says yes exactly when the filter is long enough and every probed bit is set, or the probe count is out of range. |
| `Filters.NoFalseNegatives` | sstable/filter.go:29-86 | Every key a filter was built from matches it. |
| `Filters.ProbeAt` | sstable/filter.go:50-58 | Probe i of a 32-bit hash h is (h + i * delta) mod 2^32 mod the number of bits, where delta is h rotated right by seventeen. |
| `Filters.FilterShape` | sstable/filter.go:29-48 | The least whole number of bytes with room for the bits asked for and for sixty-four; the floor of 0.69 times the bits per key as probes, between one and thirty. |
| `WalRecords.EncodeRecord` | wal/record.go:34-85 | Rejects empty batches, numbers of 57 bits and empty keys in the code's order; otherwise the frame with its checksum patched in. |
| `WalRecords.DecodeRecord` | wal/record.go:87-156 | The decoder, with the inputs on which its slicing panics marked as such; what it accepts carries the checksum of its own bytes. |
| `WalRecords.RoundTrip` | wal/record.go:34-156 | An encoded batch decodes to itself, deletes without their value, whatever bytes follow. |
| `WalRecords.TornIsInvalid` | wal/record.go:87-98 | No strict prefix of an encoded batch decodes, for any checksum function. |
| `WalRecords.LogReadsBack` | wal/record.go:87-156 | A concatenation of encoded batches and a torn one reads as exactly those batches. |
| `WalRecords.DecodesIntactOnly` | wal/record.go:87-156 | Whatever decodes, its first four bytes are the checksum of the rest of the record, its length, type, flags, start number and record count are those the fields at their places name, and it holds that many records. |
| `WalRecords.DamageEndsLog` | wal/record.go:100-103 | A log reads as its records up to the first one whose checksum does not match its bytes, and nothing after it. |
| `WalRecords.RecordLayout` | wal/record.go:34-85 | Where checksum, length, type, flags, start number and count stand in an encoded record, and that the checksum is of all that follows it. |
| `WalRecords.LogicalLayout` | wal/record.go:44-63 | Where key length, value length, type, key and value stand in a logical record; a delete has no value. |
| `WalRecords.RejectsExactly` | wal/record.go:34-47 | The encoder refuses a batch exactly when it is empty, its number needs more than 56 bits or some key is empty, the first two reported in that order. |
| `ManifestRecords.EncodeRecord` | manifest/record.go:39-89 | The frame of any of the three edits, checksum patched in. |
| `ManifestRecords.DecodeRecord` | manifest/record.go:91-153 | The decoder, including reads past a short payload that leave fields zero. |
| `ManifestRecords.RoundTrip` | manifest/record.go:39-153 | Every edit within its field widths decodes to itself, whatever follows. |
| `ManifestRecords.TornIsInvalid` | manifest/record.go:91-105 | No strict prefix of an encoded edit decodes. |
| `ManifestRecords.LogReadsBack` | manifest/record.go:91-153 | A manifest of whole records and a torn one reads as exactly those edits. |
| `ManifestRecords.DecodesIntactOnly` | manifest/record.go:91-153 | Whatever decodes carries the checksum of its own bytes and the length its field names. |
| `ManifestRecords.DamageEndsLog` | manifest/record.go:91-105 | A manifest reads as its edits up to the first record whose checksum does not match its bytes, and nothing after it. |
| `ManifestRecords.RecordLayout` | manifest/record.go:39-89 | Where checksum, length, type and fields stand in an encoded edit. |
| `ManifestReplay.ReplayManifest` | engine/manifest_replay.go:10-52 | The loop over bytes builds the version that folding the decoded edits gives, stopping at the first bad record. |
| `ManifestReplay.ReplayReadsBack` | engine/manifest_replay.go:19-49 | A manifest written from edits, last record possibly torn, replays to those edits. |
| `WalLogs.WAL.Append` | wal/wal.go:58-75 | A rejected batch changes nothing; any other becomes the last thing the log reads, in a new segment exactly when its encoding does not fit the active one. |
| `WalLogs.SegmentsReadBack` | engine/recovery.go:71-84 | Segments of whole batches, the last possibly torn, read as those batches in order. |
| `WalLogs.SegmentReadsBack` | engine/recovery.go:71-84 | Each segment reads as its own batches, the last one whatever torn bytes it ends in. |
| `WalLogs.Truncate` | wal/truncation.go:28-69 | Deletes a prefix of segments wholly at or below the cutoff, never the last, and nothing at all when one it looks at does not decode to its end. |
| `WalLogs.SegmentMax` | wal/truncation.go:39-56 | The largest number of a segment, or none when it does not decode to its end. |
| `WalLogs.LongestCovered` | wal/truncation.go:28-64 | With whole segments, whatever the last one holds, the number deleted is the longest run of leading segments in which no batch goes past the cutoff: all of those are, and the next has one that does. |
| `WalLogs.UnreadableKeepsAll` | wal/truncation.go:43-49 | If a segment reached before the first uncovered one does not read to its end, nothing is deleted. |
| `WalLogs.TruncationKeepsReplay` | wal/truncation.go:28-69 | For any bytes and any cutoff, what remains replays past that cutoff to the same batches. |
| `WalLogs.PartialTruncationKeepsReplay` | wal/truncation.go:66-69 | So does every intermediate point between two deletions. |
| `Blocks.BlockBuilder.Add` | sstable/block.go:37-68 | Appends one entry, sharing its prefix with the previous key except at every sixteenth entry, where a restart is recorded. |
| `Blocks.BlockBuilder.Finish` | sstable/block.go:70-79 | The bytes are the encoded entries, the restart offsets and their count. |
| `Blocks.ParsesAt` | sstable/block.go:222-274 | Every entry of a built block parses back from its offset given the key before it, and a restart entry whatever came before. |
| `Blocks.RestartTable` | sstable/block.go:104-122 | The restart table reads back from the end of the block. |
| `Blocks.EntrySharesPrefix` | sstable/block.go:37-68 | The first number stored for an entry is 0 at every sixteenth and otherwise the length of the longest prefix its key has in common with the key before. |
| `Blocks.RestartsAt` | sstable/block.go:48-54 | One restart for every sixteen entries begun, at entries 0, 16, 32 and so on; one in an empty block. |
| `Blocks.BlockIterator.SeekToFirst` | sstable/block.go:136-139 | Stands on the first entry of a built block, or past the end of an empty one. |
| `Blocks.BlockIterator.Next` | sstable/block.go:177-184 | Moves on exactly one entry. |
| `Blocks.BlockIterator.FindRestart` | sstable/block.go:141-166 | Binary search ends at a restart whose key is below the target, or the first, with no later restart below it. |
| `Blocks.BlockIterator.Seek` | sstable/block.go:141-175 | In a built block with keys in byte order, lands where linear search over all entries would. |
| `Tables.HandleRoundTrip` | sstable/table.go:25-39 | A block handle decodes to itself. |
| `Tables.FooterRoundTrip` | sstable/table.go:48-69 | A footer decodes to itself, magic number and all. |
| `Tables.FooterLayout` | sstable/table.go:41-69 | The forty bytes of a footer: two handles of two 64-bit fields and the magic number; bytes are accepted as a footer exactly when there are at least forty of them with that number at byte 32. |
| `Tables.StoredReadsBack` | sstable/reader.go:106-135 | A stored block, raw or compressed, reads back to its content from anywhere in a file. |
| `Tables.StoredExactly` | sstable/builder.go:109-146 | A stored block is the compressed bytes and a 1 exactly when compressing saves more than two bytes, else the content and a 0, and then the checksum of all that. |
| `Tables.ReadsIntactOnly` | sstable/reader.go:106-135 | Reading a block reports a checksum mismatch exactly when its last four bytes are not the checksum of the others, and returns content exactly for an intact block of type 0, or of type 1 that decompresses. |
| `Tables.Builder.Add` | sstable/builder.go:61-98 | The contents grow by one entry; a block is cut by the entry that brings it to 4096 bytes; a pending index entry always means an empty data block; a closed builder refuses. |
| `Tables.Builder.FlushDataBlock` | sstable/builder.go:104-153 | The data block's entries become the last block of the layout and its handle the pending index entry; an empty one changes nothing. |
| `Tables.Builder.Close` | sstable/builder.go:156-279 | The file is the laid-out blocks, the filter of all user keys if there are any, meta index, index with one entry per block, and footer. |
| `Tables.Builder.WriteBlock` | sstable/builder.go:109-146 | Compresses when that saves more than two bytes, appends type and checksum, and returns the handle of what was written. |
| `Readers.TableReads` | sstable/reader.go:155-167 | The footer of a built file leads to its index and meta index blocks, and the filter lies where the meta index says. |
| `Readers.DataBlockReads` | sstable/reader.go:250-267 | Index entry i leads to data block i. |
| `Readers.SmallTableFits` | sstable/builder.go:156-279 | Any table with up to a gigabyte of entries stays within the format's field widths. |
| `Readers.TableIterator.LoadDataBlock` | sstable/reader.go:250-267 | In a built table loads the block the index stands on; past the index there is no block; a block that does not read sets the error and leaves the iterator invalid. |
| `Readers.TableIterator.SeekToFirst` | sstable/reader.go:208-217 | Stands on the first entry of the table. |
| `Readers.TableIterator.Next` | sstable/reader.go:230-248 | Moves on exactly one entry, across block boundaries, and stays at the end. |
| `Readers.TableIterator.CurrentEntry` | sstable/reader.go:196-206 | Valid exactly while entries remain, and then key and value are those of the entry at this position. |
| `Readers.NewIterator` | sstable/reader.go:169-186 | Opens every built table. |
| `Readers.ReadTable` | sstable/reader.go:208-248 | Iterating a built table from its first entry yields its entries. |
| `Readers.RoundTrip` | sstable/builder.go:61-279 | Building a table from any entries and iterating it gives exactly those entries back, for every table within the format's field widths. |
| `Readers.SmallFitsFormat` | sstable/builder.go:156-279 | Up to a gigabyte of entries is always within them, however the blocks are cut. |
| `CachedReads.CacheKeyInjective` | sstable/reader.go:97-101 | Cache keys of different files or offsets differ, whatever bars a path contains. |
| `CachedReads.Reader.ReadBlock` | sstable/reader.go:96-153 | With a cache or without, the same block, and the cache goes on holding only what the files hold. |
| `TableMetas.SeqBounds` | engine/flush.go:34-68 | The recorded bounds are the least and the greatest number in the table. |
| `TableMetas.MetaExtends` | engine/flush.go:45-70 | Updating the record entry by entry describes the whole. |
| `TableMetas.PairsDetermine` | engine/flush.go:37-43 | What a table file stores determines the entries it was written from. |
| `TableMetas.PairsAscend` | internal/comparator.go:8-37 | Entries are sorted exactly when their stored keys ascend by the comparator on encoded keys. |
| `Flushes.WriteEntries` | engine/flush.go:24-70 | The loop over a memtable's iterator adds every entry, in order, to the builder and to the record. |
| `Flushes.FlushMemtable` | engine/flush.go:16-89 | The file is a table of exactly the memtable's entries and the record its first and last key and its number bounds, 0 for the smallest of an empty one. |
| `Flushes.WriteMemtableToSSTable` | engine/recovery.go:164-212 | The same table in recovery, whose recorded size leaves out the footer and whose empty smallest is the 64-bit maximum. |
| `Flushes.ReadBack` | sstable/reader.go:208-248 | A flushed file iterates to the memtable's entries, the stored keys ascending by the comparator. |
| `Compactions.GcKeepsSurvivors` | engine/compaction.go:160-227 | The output is the merged input minus, per user key, the newest tombstone at or below the oldest snapshot and everything older, in order; with a level below, nothing is dropped. |
| `Compactions.CompactionInvisible` | engine/compaction.go:174-201 | Dropping is invisible to every read at or above the oldest snapshot if and only if no key is resurrected: its newest version a tombstone found only in the inputs while outside them the newest is a put. |
| `Compactions.InvisibleAt` | engine/compaction.go:174-201 | For one key and one read, without resurrection the newest visible version is unchanged. |
| `Compactions.VisibleChange` | engine/compaction.go:174-201 | With it, a read at the bound turns from absent to present. |
| `Compactions.ClosedIsInvisible` | engine/compaction.go:174-201 | If nothing outside the inputs is older than an input version of its key, no read at or above the bound changes. |
| `Compactions.PickInputs` | engine/compaction.go:22-78 | Computes the inputs `Picking.PickedExactly` is about; none is the error for the last level, and an empty level gives an empty list. |
| `Picking.PickedExactly` | engine/compaction.go:22-78 | For every version whose bounds are keys or absent: first whole what the level gives up, all of level 0 or the first table of a deeper one, then, with their multiplicity, exactly the tables one level down whose byte range meets the range from the comparator's least smallest to its greatest largest key of what is given up. |
| `Picking.PicksWhatMeets` | engine/compaction.go:22-78 | In every reachable state, with no assumption on the bounds: a table of the level is an input exactly at level 0 or when it is the first, one of the next level exactly when it meets that range, and no other table is. |
| `Picking.EnclosingIsInput` | engine/version_set.go:139-152 | In every reachable state a table one level down whose user keys reach past the picked range on both sides is an input exactly when neither of its bounds is undone by an extension: where one user key extends the other, the extension must not come before the other key's trailer byte by byte. |
| `Picking.EnclosingTextIsInput` | engine/version_set.go:139-152 | So it always is one when no bound's user key is another's followed by a byte below three, as in any text. |
| `PickingGap.EnclosingTableLeftOut` | engine/version_set.go:139-152 | And otherwise it need not be: on a run of the engine a level-1 table from [65] to [97, 0] encloses the deleted key [97], is left out all the same, and the key comes back. |
| `Compactions.BoundsCover` | engine/compaction.go:44-66 | The range computed over level 0 covers, by the comparator, every entry of all its tables. |
| `Compactions.InputsAreLive` | engine/compaction.go:33-76 | Inputs are live tables of the two levels concerned, level 0 goes whole, and there are none only for an empty level. |
| `Compactions.MergeInputs` | engine/compaction.go:98-231 | At least one file, numbered on from the next number, each recorded as written and cut where it became full, together holding exactly the collected merge. |
| `Compactions.DropVersions` | engine/compaction.go:185-199 | Skips exactly the rest of the dropped tombstone's user key. |
| `Compactions.IsBottom` | engine/compaction.go:176-183 | True exactly when every level below the target is empty. |
| `CompactionCommits.Commit` | engine/compaction.go:233-271 | Logs and applies every removal, then every addition, version and manifest in step. |
| `CompactionCommits.CommitFacts` | engine/compaction.go:233-271 | The inputs leave and become obsolete, the outputs join, nothing else moves. |
| `CompactionCommits.OutputsHoldSurvivors` | engine/compaction.go:151-231 | Split into files, the outputs still hold exactly what survives of the inputs, each sorted. |
| `Snapshots.SnapshotList.GetSnapshot` | engine/db.go:364-382 | A new snapshot at the last written number heads the list. |
| `Snapshots.SnapshotList.ReleaseSnapshot` | engine/db.go:384-400 | Exactly the released snapshot leaves the list, wherever it stands, with all links repaired and its own cleared. |
| `Snapshots.SnapshotList.GetOldestSnapshotSeq` | engine/db.go:402-411 | The least number of the live snapshots, or the next number when there is none. |
| `Snapshots.OldestIsLeast` | engine/db.go:402-411 | That number is a lower bound of all of them and attained. |
| `Histories.WrittenRange` | engine/db.go:223-239 | In a history numbered on batch by batch, a stretch of batches wrote exactly the entries whose numbers lie between the counts at its ends. |
| `Histories.HistoryFacts` | engine/db.go:203-241 | A number belongs to one entry, and numbers run from 1 to the count. |
| `Histories.WithBatchFacts` | engine/db.go:222-232 | Applying a batch adds its entries to the memtable and disturbs nothing. |
| `Recoveries.Recover` | engine/recovery.go:25-162 | The loops over manifest bytes and segment bytes compute the batch-by-batch recovery, and the next number is one above the largest seen. |
| `Recoveries.RecoverSegment` | engine/recovery.go:78-153 | One segment, up to its first bad record, batches at or below the cutoff skipped. |
| `Recoveries.RecoverOne` | engine/recovery.go:86-152 | One batch, as `RecoveryPages.BatchPages` describes it: skipped, or inserted and paged out when the memtable has outgrown its limit. |
| `RecoveryPages.BatchPages` | engine/recovery.go:86-152 | A batch at or below the cutoff changes nothing. Any other joins the memtable: if that is then within the limit by its encoded keys, values and sixteen bytes an entry, it stays and version, manifest and files are as before; if not, the memtable is empty and exactly one level-0 table of all of it, under the next number, has joined all three. |
| `RecoveryPages.RecoveryKeepsLimit` | engine/recovery.go:110-152 | From a crash of any reachable state, under any limit, this is what every batch of the log does, and before and after each the size estimate is exact and the memtable empty or within the limit. |
| `Recoveries.Scan` | engine/recovery.go:37-51 | The largest number and file number the manifest knows, the cutoff included. |
| `Recoveries.Maxima` | engine/recovery.go:41-48 | Those maxima bound all tables and are attained. |
| `EngineRuns.NextKeeps` | engine/db.go:523-607 | Every step of the engine keeps the invariant: write, rotate, the four durable steps of a flush, log truncation, snapshot steps, the steps of a compaction, manifest rewrite, clean-up, crash, recovery and reopening. |
| `EngineRuns.ReachableOk` | engine/db.go:50-128 | So it holds of every reachable state, from a new database on. |
| `EngineSteps.RotateKeeps` | engine/db.go:508-512 | Freezing the active memtable keeps the invariant. |
| `EngineWrite.WriteKeeps` | engine/db.go:203-241 | Logging and applying a batch keeps it. |
| `EngineFlush.FlushWriteKeeps` | engine/db.go:541-552 | Writing the flushed table keeps it before anything is logged. |
| `EngineFlush.FlushLogKeeps` | engine/db.go:557-579 | So does logging the table while its memtable is still listed. |
| `EngineFlush.FlushCutoffKeeps` | engine/db.go:581-593 | So does logging the cutoff and dropping the memtable: the cutoff never passes what tables hold. |
| `EngineFlush.CleanupKeeps` | engine/db.go:140-159 | Deleting an obsolete file never touches a live table or one being written. |
| `EngineSteps.DropSegmentKeeps` | wal/truncation.go:58-69 | Dropping a covered segment leaves in the log every batch the cutoff does not cover. |
| `EngineSteps.CompactManifestKeeps` | engine/db.go:624-677 | Rewriting the manifest keeps it. |
| `EngineSteps.AcquireKeeps` | engine/db.go:364-382 | Taking a snapshot never lowers the floor. |
| `EngineSteps.ReleaseKeeps` | engine/db.go:384-400 | Releasing one never lowers it either. |
| `EngineCompaction.CompactBeginKeeps` | engine/compaction.go:22-80 | What a compaction captures when it picks its inputs, under the closure hypothesis. |
| `EngineCompaction.CompactOutputKeeps` | engine/compaction.go:130-156 | Writing outputs while writes, flushes and snapshots go on keeps it, every output numbered above every input. |
| `EngineCompaction.CompactCommitKeeps` | engine/compaction.go:233-271 | The commit keeps it: no reader at or above the floor sees a difference. |
| `EngineClosure.ClosedFilesSuffice` | engine/version_set.go:139-152 | If no file outside the inputs holds an older version of an input's key, the step is enabled, whatever the memtables hold. |
| `EngineClosure.ClosureIsExact` | engine/compaction.go:174-201 | In every reachable state with nothing below the target, dropping is invisible at or above the oldest snapshot if and only if the engine's step is enabled. |
| `EngineClosure.MemsAreSuffix` | engine/db.go:508-512 | The memtables hold a whole suffix of the history: with an entry, everything written after it. |
| `EngineRecovery.CrashKeeps` | engine/recovery.go:25-51 | A crash at any point leaves a state recovery can start from, whatever unlogged files it leaves. |
| `EngineRecovery.RecoverNextKeeps` | engine/recovery.go:80-152 | Each recovered batch, paged out or not, keeps that. |
| `EngineRecovery.ReopenKeeps` | engine/db.go:78-128 | With the log read to its end the database serves again. |
| `EngineTheorems.ReadsTheHistory` | engine/db.go:278-358 | In every reachable state every read at or above the floor returns what the history says. |
| `EngineTheorems.SnapshotIsolation` | engine/db.go:278-382 | Over any run a live snapshot reads the same before and after. |
| `EngineTheorems.NoBatchIsSplit` | engine/db.go:364-371 | No snapshot sees part of a batch. |
| `EngineTheorems.ReadYourWrite` | engine/db.go:161-276 | After a batch of any records, the latest read of a key returns the value of the last of them with that key, or nothing if that one is a delete, and reads as before if none has it. |
| `EngineTheorems.WriteTakesEffect` | engine/db.go:203-241 | The same of the histories before and after, for all keys at once: what `DB.Write`, `DB.Put` and `DB.Delete` promise of a read that follows. |
| `EngineTheorems.RewriteForgets` | engine/db.go:624-651 | Right after a rewrite it does exactly when there were none. |
| `EngineNumbers.FreshNumbers` | engine/recovery.go:41-48 | A number the manifest named at any point of any run, rewritten away or not, is at or below the largest live one ever after, and so below every number still to be given out. |
| `EngineNumbers.NumbersStep` | engine/compaction.go:133-158 | No step lowers the largest live number, compactions and crashes included. |
| `EngineNumbers.ObsoleteIsNotLive` | engine/db.go:140-158 | No live table is among the obsolete numbers, as they are or as replayed. |
| `EngineNumbers.ManifestRefinesVersion` | engine/manifest_replay.go:10-52 | At every point outside a commit, serving or recovering, the manifest replays to the live levels and cutoff, and to every obsolete number exactly when all that a rewrite found obsolete have been cleaned up since. |
| `EngineNumbers.ObsoleteSuperset` | engine/manifest_replay.go:39-41 | After any run from a new database replay knows every obsolete number exactly when none of them was already obsolete at a rewrite; without a rewrite, always. |
| `CrashRecovery.CrashThenRecover` | engine/recovery.go:25-162 | From any reachable state, in the middle of a flush, truncation, uncommitted compaction or earlier recovery, a crash and a recovery under any memtable limit read every key as the history does; the next number is the history's, and what is recovered is exactly the logged tables and the batches beyond the cutoff. |
| `CrashRecovery.PagingIsTransparent` | engine/recovery.go:110-152 | Any two memtable limits recover exactly the same entries and the same next number. |
| `CrashRecovery.PagingIsRepeatable` | engine/recovery.go:110-152 | Interrupting recovery anywhere and recovering again, with pages and their batches both present, gives the same reads. |
| `CrashRecovery.BytesReadBack` | engine/recovery.go:71-84 | Disk bytes written by the engine, each log possibly torn at its end, decode to the state's disk. |
| `CrashRecovery.RecoverFromBytes` | engine/recovery.go:25-162 | The recovery procedure run on those bytes reads as the history. |
| `CrashRecovery.ReopenRuns` | engine/db.go:50-128 | Crash, recovery in one go and reopening are a run of the engine's steps. |
| `Databases.ReaderSources` | engine/db.go:284-333 | The sources of a read of a reachable state meet the reader's contract and are together everything live. |
| `Databases.DB.Open` | engine/db.go:50-128 | Opening the bytes a crash has left serves the same history, in a state the engine reaches by crashing, recovering and reopening, with a memtable that is empty or within its limit. |
| `Databases.DB.Write` | engine/db.go:203-241 | A rejected batch changes nothing; any other takes effect for every later read as the last of its records with each key says, in one write step, in a new segment exactly when its encoding does not fit the active one, followed by a rotation exactly when the memtable has grown to its limit. |
| `Databases.DB.Put` | engine/db.go:161-200 | The same for one put; only an empty key is rejected. |
| `Databases.DB.Delete` | engine/db.go:243-276 | One write step and never a rotation. |
| `Databases.DB.InsertRecords` | engine/db.go:222-232 | The insert loop computes the memtable after the batch and its size estimate. |
| `Databases.RawSizeAdds` | memtable/memtable.go:31-40 | The memtable's size estimate of two runs of records is the sum of theirs, whatever keys they share. |
| `Databases.DB.GetWithOptions` | engine/db.go:278-358 | Returns what the history says at the snapshot's number, or at the last write without one. |
| `Databases.DB.OpenTables` | engine/db.go:470-481 | Every live table, newest number first. |
| `Databases.DB.NewIterator` | engine/db.go:413-467 | Scans the history at the snapshot's number, or at the last write: in strictly ascending order, exactly the pairs a read at that number returns. |
| `Databases.DB.NewRangeIterator` | engine/db.go:483-491 | The same restricted to a range of keys. |
| `Databases.DB.NewPrefixIterator` | engine/db.go:493-503 | The same restricted to the keys with a prefix. |
| `Databases.DB.GetSnapshot` | engine/db.go:364-382 | One acquire step. |
| `Databases.DB.ReleaseSnapshot` | engine/db.go:384-400 | One release step. |
| `Databases.DB.FlushOldest` | engine/db.go:534-600 | A run of the four flush steps and then segment drops: with a positive cutoff, the greatest number of the flushed memtable, the log loses exactly its longest run of leading segments that number covers, never the last; with a zero cutoff nothing. |
| `Databases.DB.CommitFlush` | engine/db.go:541-593 | The four durable steps in the code's order; the cutoff is the greatest number of the flushed memtable. |
| `Databases.DB.Truncate` | engine/db.go:595-599 | The log loses exactly its longest run of leading segments the cutoff covers, short of the last. |
| `Databases.DB.CompactManifest` | engine/db.go:624-677 | One rewrite step. |
| `Databases.DB.CleanupObsoleteFiles` | engine/db.go:140-159 | Removes exactly the files of obsolete tables and forgets their numbers. |
| `CompactLevels.CompactLevel` | engine/compaction.go:22-272 | An error for the last level, nothing for an empty one; otherwise the files, manifest and version the merge gives. With any table below the target the new files hold exactly what the inputs do; with none, all but each tombstone at or below the oldest snapshot and what it supersedes. No read at or above the oldest snapshot changes exactly when the engine's step is enabled, and then it is a run of the engine from picking inputs to commit. |
| `CompactLevels.CompactionRuns` | engine/compaction.go:80-272 | The merge, its files and the commit are a run of engine steps ending in the stored state. |
| `PickingGap.OverlapMissesOlderVersion` | engine/version_set.go:139-152 | On a run of the engine (put, flush, compact, delete, flush) byte-wise overlap leaves the put out of the compaction that drops its delete: the key reads as absent before and as present after. |
| `CompactLevels.CompactionExact` | engine/compaction.go:174-201 | For every reachable state and level: reads at or above the oldest snapshot are unchanged if and only if the engine's step is enabled. |
| `CompactLevels.CompactedLive` | engine/compaction.go:98-271 | After the commit the live entries are exactly the survivors of the inputs and everything outside them. |

## Left out

- File system calls, fsync and rename: the disk is durable records and immutable files, and a write either succeeds or
  ends the run.
- Goroutine scheduling: each locked section is one step (a flush's commit two), with one flush and one compaction at a
  time, as the two mutexes ensure on the automatic path. Open file handles that outlive a deleted file are not modelled.
- A crash in the middle of a compaction commit: removals and additions are separate records, so no claim holds there.
- Several crashes that each leave a torn tail, and corruption before the last segment.
- Compression, checksums and hashing are parameters: any checksum function of the covered bytes, any compression whose
  decompression inverts it.
- Corrupt tables: blocks whose restart table lies outside them make the source panic; the iterators here start from
  blocks a builder wrote, and varints of 2^63 and more, which the source turns into negative lengths, are not followed.
- The value a delete record carries: the log drops it, the memtable keeps it, and no read can show it; entries here do
  without.
- Merge children are the sequences of entries they have still to yield, since Go's iterator interface has no counterpart
  here; the skiplist iterator and the table iterator are proved to yield such sequences.
- The engine and the database object hold memtables and table files as sorted entry sequences; that the skiplist and the
  table files behave as such sequences is proved separately (`Skiplists.Skiplist.Insert`, `Flushes.FlushMemtable`,
  `Flushes.ReadBack`). Aliasing between a memtable and its live iterators is covered only by `VersionFilters.Interleave`.
- Sorting of a level is insertion after equal smallest keys, where Go's sort may place ties in any order.
- Table `Seek` over internal keys compares raw bytes and is not used by the engine; seek is stated for blocks in byte order.
- The order and disjointness of tables in level 1 and below: reads do not depend on them.
- Compaction scoring (`PickCompaction`), configuration, the command line and the background error flag.
- Segment file names: log segments are a sequence in number order.
- The filter is not consulted by the engine's reads; only its own contract and its place in the file are stated.
- Compactions.MergeInputs: the builder reaching its size limit is a predicate on the entries given to it, and a finished
  file's size a function of them.
- CompactLevels.CompactLevel: its outputs are numbered consecutively, as when no flush takes a number in between; the
  step machine allows any interleaving.
- EngineCompaction.CompactBeginKeeps: starts only compactions that resurrect no key; `CompactLevels.CompactLevel` covers
  the others, and `CompactLevels.CompactionRuns` is about those that are runs of the engine.
- Databases.DB.Write: the active segment's length is a counter; that it is the length of its encoding is
  `WalLogs.WAL.Append`. Iterators made without a snapshot show the database as it was when they were made.
- Databases.DB.Open: a missing table file is an error in the source; in a reachable state none is missing.
- Recoveries.Recover: the memtable is a sequence and the files are entries; numbers stay below 2^56 and record types known.
