# A model of go-fbx

go-fbx is an append-only container file: a 128-byte header with a fixed copy behind it, chunk records, and after
them, for every commit, a directory (DIR1), an index of it (IDX1) and two header records (JNL1, BKP1). This project
models the format, the commit protocol, recovery, the chunk pipeline, streaming reads, transactions, packing and
locking, and proves what they promise.

Checksum, path hash and codecs are a parameter `Primitives` of arbitrary deterministic functions. No theorem assumes
that different inputs have different checksums or hashes; theorems about content assume that decompression undoes
compression and that sizes fit in 32 bits (`InversePair`).

## Layout

| part | files |
|---|---|
| bytes, results, foreign functions | `Binary`, `Common` |
| directory: printer, three parsers, sorting, encoder | `Directory`, `Catalog`, `Rows`, and their loops in `DirectoryCode` |
| index: hash ranges, codec, validation, lookup | `HashRanges`, `DirIndex`, `Lookup`, and the codec's loops in `IndexCode` |
| header, header records, chunk records | `Header`, `Journal`, `Chunk`, and their buffers in `RecordCode` |
| loading, torn headers, the directory scan, the recovery ladder | `Snapshot`, `DirScan`, `Open`, and Open itself in `OpenCode` |
| disk, commit, crash safety | `Disk`, `Commit`, `Slots`, `Runs`, `Create`, `Tail` |
| chunk writing, sequential and parallel, and reading | `ChunkWriter`, `WriteRead`, `Pipeline`, `EntryReader`, `EarlyEnds`, `Isolation` |
| transactions as objects and as runs | `Transaction`, `Simulation` |
| byte accounting, packing, locks | `Accounting`, `Pack`, `Packed`, `Locks` |

The specification functions carry the names of what they specify in their comments (`LoadSnapshot` is
`loadSnapshotByHeader`, `Scan` is `scanDirectoryEntriesForIndex`, and so on). Code that the source writes as loops or
as updates of objects is a method or a class here, and its contract equates it with such a function; the properties
are then lemmas about the functions.

### The disk

`Disk` is a durable image and a list of unsynced writes. A crash (`CrashImage`) keeps the durable bytes behind the two
header slots, puts anything of any length behind the durable end, and may tear either slot field by field between its
durable bytes and all unsynced writes to it. A header is never split inside a field. A file operation that fails has no
effect.

### Runs

`Runs` is a state machine over one handle: reopen, header repair with writes that may be refused, begin, append, edit,
rollback, the ten operations of a commit with a possible failure before each, acknowledgement, close, and a crash at any
point. Its state names the versions the disk can yield: the one it has settled on, and the one whose header has been
written to the primary slot and not been synced since. `Append` writes any bytes at the end of the file and `Edit`
leaves any map whose entries can be encoded and whose records lie inside the file. Transactions on the objects of
`Transaction` are runs of this machine (`Simulation`).

### Limits the code leaves to its callers

Commit does not check, and the reader rejects, a directory or index above 1 GiB and an index whose checksum is zero;
`Commit.PublishedLoadsIff` says that these are the only ways for a published header not to load. Theorems about runs
are about commits within these limits. Chunk sizes, path and metadata lengths and chunk counts have to fit in 32 bits.

## Where the code does something else than one might expect

- The reader's error for a premature end (`io.ErrUnexpectedEOF`) coming from the source of an `Add` is taken as the end
  of the data (`WriteRead.PrematureEndAccepted`).
- An entry is cut short without an error when the record of its first unreadable reference runs past the end of the
  file (`EntryReader.OrdinaryEndIff`). A container opened lazily does not check chunk offsets before `OpenReader`
  (`EarlyEnds.LazyCutShort`). Once the map has been loaded, all recorded extents lie inside the file, and only a
  recorded compressed size of zero leaves this possible (`EntryReader.CheckedEndIff`, `EarlyEnds.CheckedCutShort`).
- A failed Upsert or Replace leaves a live entry counted as dead (`Accounting.FailedReplaceOvercounts`), and what a
  failed Add has appended is never counted (`Accounting.FailedAddConservesIff`).
- Reading through another handle of the same file inside a transaction can deadlock (`Locks.CrossReadDeadlocks`).
- The documents describe a choice by generation and a rule that a JNL1 without its BKP1 is ignored; the code chooses by
  time and accepts a lone record (`Journal.BestRecordIff` says which record it takes). Likewise the directory scan prefers
  the most readable directory, not the newest (`DirScan.ScanFindsMostReadable`).
- In the parallel writer an error of a later chunk can be the one returned, and can keep earlier chunks from being
  written (`Pipeline.LaterErrorWins`). Success and its result do not depend on the schedule
  (`Pipeline.ParallelRefinesSequential`), nor does the error if all chunks that cannot be encoded have the same as the
  sequential loop.

## Model

| member | source | states |
|---|---|---|
| Runs.CrashAtomicity | fbx/tx.go:235-371 | from any state in which the invariant holds, after any run of begin, append, edit, commit, failing, rollback, close, crash, reopen and repair steps, refused or not: whatever image a crash leaves, Open succeeds and shows one of at most two versions, the one the disk has settled on or, between the write and the sync of a primary slot, the one being published; lookups, map and chunk records included |
| Runs.UnpublishedHidden | fbx/tx.go:279-347 | from the first sync of a commit to the write of the primary slot, a crash or a failure leaves the version before and nothing else |
| Create.CrashSafety | fbx/container.go:157-256 | the same two versions for every run of a container made by Create, the one condition being that the CRC of its first index is not zero |
| Runs.AcknowledgedSurvives | fbx/tx.go:343-371 | once Commit has returned nil, and until another commit starts, every crash image shows exactly the committed version, however often the container is closed, crashes and is reopened in between |
| Runs.ShownSurvives | fbx/container.go:66-83 | once an Open after a crash has shown a version, and until a commit starts, no later crash brings another one back, not even a crash inside the header repair of that Open or of a later one |
| Runs.StepKeeps | fbx/tx.go:235-391 | every single step of the machine keeps the invariant |
| Runs.CommitOpKeeps | fbx/tx.go:249-354 | each of the ten file operations of Commit keeps what is known of the disk at that point |
| Runs.FirstSyncOp | fbx/tx.go:279-284 | after the first sync the new directory, its index and all chunk records are durable and a pending header move is settled |
| Runs.AcknowledgeStep | fbx/tx.go:356-371 | after the last sync the new version is the only one the disk can yield |
| Runs.ReopenStep | fbx/container.go:34-136 | reopening keeps the invariant, and a version shown with nothing unsynced becomes the only possible one |
| Runs.BeginStep | fbx/container.go:486-532 | Begin reads the whole map, and every entry it reads may be committed again |
| Runs.ShownReads | fbx/container.go:630-683 | every chunk of a shown version that could be read when it was committed reads the same from the file found after a crash |
| Runs.CommitNeedsOnlyLimits | fbx/tx.go:235-371 | inside a run the only input condition on a commit is that its directory ends below the largest file offset |
| Runs.NeverStuck | fbx/container.go:34-136 | a closed or crashed container can be reopened in every reachable state, and an idle one can begin a transaction |
| Runs.LoadingStep | fbx/container.go:535-551 | unless a write of the header repair is refused, the primary slot loads whenever a transaction is open, which is what the machine asks for before a commit |
| Slots.CrashKeeps | fbx/container.go:535-551 | any image a crash may leave has the shape the disk had: settled on one header, or moving from one to another whose fixed slot is durable |
| Slots.ShapeOpens | fbx/container.go:50-98 | whatever the shape, Open yields an allowed version; with nothing unsynced the disk can afterwards yield no other |
| Slots.TornYields | fbx/container.go:77-98 | a torn primary slot either loads as one of the two versions or fails in a way that makes Open use the fixed slot |
| Slots.EssenceBack | fbx/header_ext.go:51-57 | tearing more of the new header into a mixture never brings back the old header's pointers |
| Slots.SyncSettles | fbx/tx.go:279-354 | a sync completes a pending rewrite of the primary slot |
| Slots.PrimaryWriteMoves | fbx/tx.go:329-354 | with the new header synced in the fixed slot, writing the primary slot leaves a disk that can only yield the old or the new version |
| Slots.RepairKeeps | fbx/container.go:535-551 | the two slot writes of the header repair keep a moving disk moving to the same header |
| Slots.PrimaryLoadsIff | fbx/container.go:50-76 | as the process sees it, the primary slot of an open container loads exactly if it is not still torn from a crash |
| Slots.AnchoredGrows | fbx/container.go:792-848 | what a header depends on survives everything that leaves the bytes behind the slots in place |
| Snapshot.TornHeaderResolves | fbx/container.go:792-823 | a header whose every field comes from some committed header loads if and only if its pointers are those of one of them, then as exactly that snapshot; otherwise its error sends Open on; nothing is assumed of the checksum |
| Snapshot.TornIndex | fbx/dir_index.go:157-191 | the index read through a mixture of headers is the index of one of them, and then directory tuple and generation are that header's too |
| Snapshot.EssenceDecides | fbx/container.go:792-848 | loading and materialising depend on directory tuple, generation and index pointer and on nothing else in a well-formed header |
| Snapshot.LoadsIff | fbx/container.go:792-823 | any header loads, lazily, exactly when it is in the canonical layout with the known features and, byte for byte, a directory's head and footer with the right checksum and count and a valid index with its checksum, tuple and generation lie where it says |
| Snapshot.LoadErrors | fbx/container.go:977-979 | which errors keep Open from going on: exactly unknown required features, and a directory or index of more than 1 GiB |
| Snapshot.EnvelopeErrors | fbx/dir_index.go:231-259 | a blob is refused for its checksum exactly if everything else of head and footer but the flags is as expected |
| Snapshot.MaterializesIff | fbx/container.go:879-925 | the map of a loaded container is decoded exactly when every row of the index names an entry of the directory, byte for byte, no two with one path, and all their extents are inside the file |
| Snapshot.GroundedLoads | fbx/container.go:879-925 | loading does not look at chunk references; decoding the map succeeds exactly when all their recorded extents lie inside the file |
| Snapshot.SnapshotAnswers | fbx/container.go:318-349 | the snapshot of a committed header answers every lookup as its map does, before and after it is materialised |
| Header.HeaderRoundTrip | internal/format/header.go:52-115 | header bytes parse back to the header, and any 128 bytes are the bytes of what they parse to |
| Header.CheckLayoutIff | fbx/header_ext.go:78-125 | the layout check accepts exactly the headers with the four flags, the marker, the record size, a complete index pointer and exactly the four known features |
| Header.MixedStamped | fbx/header_ext.go:78-104 | a mixture of accepted headers passes every check that looks at single fields |
| Disk.TornParses | fbx/container.go:50-60 | a slot torn field by field parses to a header each of whose fields is some candidate's |
| Disk.TornSingle | fbx/tx.go:329-341 | a slot torn between copies of one header is that header |
| Disk.ViewGrows | fbx/container.go:765-773 | unsynced writes under the append-only discipline leave everything behind the slots in place |
| Disk.ViewSlot | fbx/tx.go:329-347 | what a process reads in a slot is the last write to it, or the durable bytes |
| Disk.CrashCovers | fbx/tx.go:249-354 | the crashes considered include every loss and every reordering of unsynced writes |
| Commit.PublishedLoadsIff | fbx/tx.go:286-301 | a freshly published header loads if and only if directory and index are at most 1 GiB each and the index checksum is not zero, the three limits Commit does not check |
| Commit.ZeroChecksumUnloadable | fbx/header_ext.go:95-98 | a concrete commit, of an empty map with a zero checksum, whose header does not load |
| Commit.PlanAnchors | fbx/tx.go:239-301 | once the planned directory and index are in the file, the new header names them and the map they hold is the transaction's |
| Commit.PlanIndex | fbx/tx.go:268-278 | the planned index is exactly that of the encoded entries |
| Commit.PlanExists | fbx/tx.go:235-301 | far below the largest file offset, a committable map has a plan exactly if every offset and size in its index fits in 32 bits, as always below 4 GiB |
| Commit.EncodedContents | fbx/tx.go:239-243 | the encoded entries are sorted, unique and exactly the derived map, in whatever order the map was ranged over |
| Commit.PlanPreserves | fbx/tx.go:239-301 | the map that a commit publishes has exactly the paths of the transaction's map, and under each the same time, mode, flags, size, metadata and references |
| Commit.NextHeaderStamped | fbx/tx.go:256-301 | the new header's pointers, counters and generation, exactly when it is in the canonical layout, and that uuid, creation time, upper flag bits and padding are kept |
| Create.CreatedSound | fbx/container.go:157-256 | the file Create leaves is a sound start for every run |
| Create.FirstHeaderIsNext | fbx/container.go:171-210 | Create's header is the one a commit of the empty map would publish over a blank header |
| Create.ScriptLayout | fbx/container.go:182-244 | Create's writes leave both slots holding the header, directory and index behind them, and the backup record at the end |
| Tail.CommittedTailOpens | fbx/container.go:100-110 | after a completed commit, if neither header slot can be used any more, Open yields the committed map, with all that the transaction's map says of each path, whatever the times of its two records, provided no usable journal record starts inside them; or else provided no journal record in the tail is later; and the header's journal pointer leads to its JNL1 |
| Tail.ScriptSeen | fbx/tx.go:249-354 | the file after the ten operations: everything appended in order, both slots replaced |
| Open.PrimaryOpens | fbx/container.go:50-60 | an intact primary slot is used whatever else the file holds |
| Open.PrimaryDecides | fbx/container.go:43-64 | a file without room for a header is not opened; a primary header that loads is used as it is; one that fails for good decides; any other passes its error on |
| Open.FixedDecides | fbx/container.go:66-98 | past the primary slot, a header in the fixed slot whose directory is there is used, with repair, if it loads, and decides if it fails for good |
| Open.RecordsDecide | fbx/container.go:100-110 | past both slots, so does the header of the best record in the tail |
| Open.LaterRecordOpens | fbx/journal.go:105-121 | past both slots, the later of the two highest records, or a lone one, opens the map it was committed with |
| Open.ScanDecides | fbx/container.go:112-135 | past slots and records, the most readable directory of the file is opened with its decoded map and no repair; Open fails if two of its entries share a path, and returns the error of the primary slot if there is no directory |
| Open.FixedSlotOpens | fbx/container.go:86-98 | when the primary slot fails recoverably, an intact fixed slot is used and repair is due |
| Open.TailRecordOpens | fbx/container.go:100-110 | when neither slot can be used, the backup record at the end of the file is |
| Open.ScanOpens | fbx/container.go:112-126 | the last rung opens the best directory of the file with its decoded map, fails if two of its entries share a path, and reports the first error if there is no directory |
| OpenCode.OpenContainer | fbx/container.go:34-136 | the ladder with its first error and its repair yields exactly the specified outcome and disk |
| OpenCode.TryHeader | fbx/container.go:66-83 | a recovered header gives nothing, a fatal error, or a handle whose slots have been rewritten |
| OpenCode.PersistRecoveredHeader | fbx/container.go:535-551 | both slots rewritten as far as the file lets it, errors ignored |
| OpenCode.PersistIsRun | fbx/container.go:535-551 | whatever of it is refused, the repair is a run of the state machine |
| OpenCode.RepairRestores | fbx/container.go:535-551 | a repair of which nothing is refused leaves both slots holding the header, durable, and the rest of the file as it was |
| OpenCode.Handle.EnsureLoaded | fbx/container.go:879-909 | the lazy form is replaced by the decoded map, or nothing changes |
| Journal.ParseRecordIff | fbx/journal.go:31-78 | a buffer parses as a record of a header and time exactly when it is the record built from them |
| Journal.RecordAtIff | fbx/journal.go:140-158 | a usable record lies exactly where the bytes are those of a record of a well-formed header whose directory is intact in the file |
| Journal.HighestRecord | fbx/journal.go:123-160 | the search returns a record exactly when it is usable and in the window and no usable one lies above it |
| Journal.RecoverHeaderByMagic | fbx/journal.go:123-160 | the backwards loop over the tail buffer computes that search |
| Journal.BackupAtEndRecovers | fbx/journal.go:105-121 | a backup record at the end of the file wins unless a journal record is later |
| Journal.BothRecordsRecover | fbx/journal.go:105-160 | a file that ends with both records of a header recovers it for any two times, even if the clock was set back between them |
| Journal.BestRecordIff | fbx/journal.go:105-121 | a header is recovered from the tail exactly when it is that of the highest JNL1 and every highest BKP1 is earlier, or that of the highest BKP1 and no highest JNL1 is later, a lone record being enough; none exactly when the last 8 MiB hold none |
| DirScan.CandidateIff | fbx/recovery_scan.go:143-237 | the candidate parser accepts at an offset exactly when some piece of the file there decodes as a directory of admissible size |
| DirScan.BetterIsStrictTotal | fbx/recovery_scan.go:98-111 | the preference is a strict total order on scores with readable at most total |
| DirScan.ScoredIff | fbx/recovery_scan.go:113-141 | a directory is considered exactly when it decodes, its references lie in the file and it does not start at offset zero |
| DirScan.ScanFindsBest | fbx/recovery_scan.go:27-96 | the result is the best of all directories anywhere in the file, and the scan fails only when there is none |
| DirScan.ReadableIff | fbx/recovery_scan.go:265-289 | an entry counts as readable exactly when all its references load under verification, follow each other in raw order without wrapping around, and end at its size |
| DirScan.ScanFindsMostReadable | fbx/recovery_scan.go:27-111 | of all directories in the file the scan chooses the one with the most readable entries, then the fewest others, then the latest, then the highest, and makes up a header that says nothing but where it lies and when it was built; it fails only if there is none |
| DirScan.SearchWindow | fbx/recovery_scan.go:62-80 | every occurrence of the magic in one window is tried, in order, exactly once |
| DirScan.ScanBlocks | fbx/recovery_scan.go:44-95 | for any block size the overlapping windows try every occurrence exactly once and find that best directory |
| RecordCode.WalkEntries | fbx/recovery_scan.go:167-212 | the cursor loop finds the end of the entries, or stops, as specified |
| RecordCode.EntryReadable | fbx/recovery_scan.go:265-289 | the loop with its running end decides readability |
| RecordCode.AssessReadable | fbx/recovery_scan.go:255-263 | the number of readable entries |
| RecordCode.MarshalHeader | internal/format/header.go:52-70 | the header's bytes, field by field |
| RecordCode.BuildHeaderRecord | fbx/journal.go:31-50 | the record with its checksum patched in last |
| RecordCode.EncodeChunkRecord | internal/format/chunk.go:28-46 | the record written into one buffer |
| Directory.DecodeIff | internal/format/directory.go:70-241 | the full decoder accepts exactly the printed directories of canonical entries: it inverts the printer on its whole domain |
| Directory.DecodeEntryIff | internal/format/directory.go:128-235 | one entry is accepted exactly when it is canonical, its bytes lie there, and room for the footer remains |
| Directory.DecodeEntryAtIff | internal/format/directory_entry.go:11-145 | the lazy decoder accepts exactly one printed canonical entry of exactly the recorded extent |
| Directory.EnvelopeIff | fbx/dir_index.go:231-259 | what the envelope check accepts |
| Directory.AcceptedChunks | internal/format/directory.go:186-219 | the chunks of an accepted non-empty entry are pairwise disjoint and in order, do not wrap around, and end exactly at its size |
| Directory.AcceptedIff | internal/format/directory.go:160-234 | which entries the decoders accept: a path with its hash, and references unreserved, in order, not wrapping around, and ending at the size |
| Catalog.RoundTrip | internal/format/directory.go:16-68 | decoding an encoded directory gives its entries sorted by path with derived fields |
| Catalog.EncodedRecords | internal/format/directory.go:30-56 | decoding an encoded directory gives, for every entry, exactly one with its path, with its time, mode, flags, size, metadata and references, and the hash of its path |
| Binary.LessIff | internal/format/directory.go:22 | the order of the entries is that of the first differing byte of their paths, a prefix coming first |
| Catalog.EncodedDecodesIff | internal/format/directory.go:16-68 | an encoded directory decodes if and only if its entries' sizes fit and their chunk maps are well formed |
| Catalog.EncodeFailsIff | internal/format/directory.go:16-68 | encoding fails, with the error for an invalid format, exactly if the directory's flags are set or some path is empty |
| Catalog.SortedOrderUnique | internal/format/directory.go:20-22 | a set of entries has one sorted order, so neither map order nor the sorting algorithm shows |
| Catalog.PrintInjective | internal/format/directory.go:24-68 | different directories have different bytes |
| Rows.ThreeParsersAgree | fbx/dir_index.go:88-155 | for every accepted directory the skip-scan gives one row per entry, the rows tile the body, and the lazy decoder at row i gives entry i, unless an offset or size needs more than 32 bits, and then the error is that a limit was exceeded |
| Rows.ReadRowsDescribed | fbx/dir_index.go:193-229 | reading the map through the rows gives the decoded map |
| Rows.ReadRowsIff | fbx/dir_index.go:202-228 | the map is read through any rows exactly when each names an entry with its hash, path and extent, no two with one path |
| DirectoryCode.DecodeDirectory | internal/format/directory.go:70-241 | the entry loop with its cursor computes the decoder |
| DirectoryCode.DecodeChunks | internal/format/directory.go:186-211 | the chunk loop with its running end accepts exactly the references in order |
| DirectoryCode.DecodeDirectoryEntryAt | internal/format/directory_entry.go:11-145 | the lazy decoder's loop computes its specification |
| DirectoryCode.EncodeDirectory | internal/format/directory.go:16-68 | the appending loop computes the encoder |
| DirectoryCode.ScanDirectory | fbx/dir_index.go:88-155 | the skipping loop computes the scan |
| DirectoryCode.ReadEntries | fbx/dir_index.go:202-228 | the loop that builds the map through rows computes its specification |
| HashRanges.BuiltRangesPartition | fbx/dir_index.go:44-86 | the built ranges are sound, sorted by hash, pairwise disjoint and cover every row |
| HashRanges.BuildHashRanges | fbx/dir_index.go:44-86 | the grouping loops compute those ranges |
| DirIndex.UnmarshalOfMarshal | internal/format/dir_index.go:44-186 | unmarshalling a marshalled valid index gives the index |
| DirIndex.UnmarshalIff | internal/format/dir_index.go:111-186 | unmarshalling accepts exactly the bytes of valid indexes, whatever their four unused bytes |
| DirIndex.ValidIff | internal/format/dir_index.go:188-233 | an index is valid exactly when entries and paths are nonempty, each entry starts no earlier than the one before it, ranges are nonempty and ordered by hash, every row of a range exists and has the range's hash, and no row is in two ranges |
| DirIndex.HeadFixesLength | internal/format/dir_index.go:134-151 | an index blob's head fixes the length the blob must have |
| DirIndex.IndexFixesItsLength | internal/format/dir_index.go:134-151 | at an index's place only its exact length can be read successfully, and then it is that index |
| IndexCode.NeighboursDecide | internal/format/dir_index.go:225-231 | checking neighbours after sorting by first row decides disjointness of all pairs |
| IndexCode.ValidateIndex | internal/format/dir_index.go:188-233 | the validator's loops, sort and neighbour check accept exactly the valid indexes |
| IndexCode.MarshalIndex | internal/format/dir_index.go:44-102 | filling the buffer in place, with the head's checksum last, gives the index bytes |
| IndexCode.UnmarshalIndex | internal/format/dir_index.go:111-186 | the reading loops compute the decoder |
| Lookup.LookupAnswersAsMap | fbx/container.go:850-877 | for any hash function, collisions included, the index search returns the entry of a path exactly when the directory has it |
| Lookup.LazyEqualsEager | fbx/container.go:318-349 | lazy lookup and the decoded map give the same answer for every path |
| Lookup.IndexRoundTrip | fbx/dir_index.go:20-42 | the index of a decodable directory can be built exactly if its offsets and sizes fit in 32 bits, and then reads back as itself |
| Lookup.BuiltIndexValid | fbx/dir_index.go:20-42 | a built index passes validation |
| Lookup.FindEntryByPath | fbx/container.go:850-877 | the loops over ranges and rows compute the lookup |
| Lookup.FoundIsThere | fbx/container.go:850-877 | with any index, foreign ones included, an entry that is found has the path asked for, is canonical and lies where a row says |
| Chunk.RecordReadsBack | internal/format/chunk.go:28-99 | a record reads back as the bytes it was made from, wherever it lies |
| Chunk.LoadRefIff | internal/format/chunk.go:56-99 | a reference loads as some bytes exactly when a record with its sizes and checksum lies there whose payload decompresses to them, within the limit, and, under verification, they have that checksum |
| Chunk.RecordLoads | internal/format/chunk.go:81-99 | what becomes of a record that is there: a damaged payload is refused with the codec's error, for its size, or for its checksum |
| Chunk.LoadRefEOFIff | internal/format/chunk.go:56-99 | a reference reads as end of file exactly when its record runs past the end of the file: its header does, or an admissible payload does |
| Chunk.LoadRefStable | internal/format/chunk.go:56-99 | what a reference reads, payload or error, depends only on the bytes of its record |
| ChunkWriter.WriteSequential | fbx/tx.go:594-642 | the sequential loop appends exactly the specified records and returns the specified references, total or error |
| ChunkWriter.FailsAtOnceIff | fbx/tx.go:594-642 | a write fails without having appended anything exactly when the first read fails, or the first chunk is over the limit, cannot be encoded, or is refused |
| WriteRead.WrittenIff | fbx/tx.go:594-642 | a write succeeds exactly if the source does not fail and is not over MaxEntrySize, and every chunk can be encoded and is not refused; if only the size is wrong, that is the error |
| WriteRead.ProducedStops | fbx/tx.go:599-620 | where and with which error the reading of a source stops, and that what is handed out is never over the limit |
| WriteRead.WrittenReadsBack | fbx/tx.go:594-642 | a successful write has read the whole source; its references are contiguous from 0 to the size, their records lie packed in the appended bytes, and they read back as the data |
| WriteRead.ProducedTiles | fbx/tx.go:599-620 | the chunks handed out tile the source, all but the last of exactly the chunk size |
| WriteRead.PrematureEndAccepted | fbx/tx.go:604-608 | a source that ends with the error for a premature end is stored like a complete one |
| Pipeline.ParallelRefinesSequential | fbx/tx.go:644-780 | for every schedule the parallel writer succeeds exactly when the sequential loop does, with the same references, bytes and total, and nothing left pending; if it fails, the error is the sequential loop's or that of a chunk that cannot be encoded, so it is the sequential loop's if only the reader failed or if all such chunks have that error |
| Pipeline.LaterErrorWins | fbx/tx.go:732-735 | three chunks, three workers and a finished schedule in which the error of the third is returned and the first is not written, though the sequential loop writes the first and returns the error of the second |
| Pipeline.FinishFrom | fbx/tx.go:644-780 | any schedule can be carried on to the end |
| Pipeline.NoDeadlock | fbx/tx.go:644-780 | before the end every reachable state has a possible move |
| Pipeline.AlwaysProgress | fbx/tx.go:644-780 | every move decreases a bounded measure, on error paths too |
| Pipeline.LogIsPrefix | fbx/tx.go:734-768 | at any moment the bytes written are a prefix of what the sequential loop writes |
| Pipeline.CollectResults | fbx/tx.go:729-769 | the collector's loops, for any order of arrival, compute the collector of the machine |
| Pipeline.DrainKeeps | fbx/tx.go:739-768 | the drain loop takes consecutive results and keeps the order of writing |
| EntryReader.Reader.Read | fbx/container.go:630-683 | one read delivers exactly the next bytes of the stream, as many as fit; an error is reported only when none are left, and then again every time |
| EntryReader.ReadSizes | fbx/container.go:630-683 | for any sequence of buffer sizes the outputs concatenate to the stream, cut where the buffers are full |
| EntryReader.Extract | fbx/container.go:396-404 | copying yields the whole stream, and no error exactly when it ended ordinarily |
| EntryReader.StreamIs | fbx/container.go:630-683 | what a reader delivers of an entry: the payloads of all references before the first that does not load or exceeds a limit, then that reference's error, or the end |
| EntryReader.DeliveredGenuine | fbx/container.go:630-683 | every delivered part is what the record of its reference decompresses to and, under verification, has the recorded checksum; the stream stops with that error in front of a payload that does not have it |
| EntryReader.DeliveredWithinLimit | fbx/container.go:665-670 | for every limit, no more bytes of an entry than MaxEntrySize are ever delivered |
| EntryReader.CheckedEndIff | fbx/container.go:911-925 | once all recorded extents have been checked to lie in the file, a stream ends as if complete exactly when everything was delivered, or when the first reference that was not has a recorded compressed size of zero and a payload that runs past the end of the file |
| EntryReader.OrdinaryEndIff | fbx/container.go:637-657 | a stream ends as if complete exactly when everything was delivered, or when the record of the first reference that was not runs past the end of the file |
| EarlyEnds.SampleOpens | fbx/container.go:34-60 | a file with one entry, whatever its reference says, opens and its entry is found; only loading the map looks at the reference, and only at its recorded extent |
| EarlyEnds.LazyCutShort | fbx/container.go:351-394 | in such a file, as Open accepts it, an entry of five bytes whose reference lies past the end of the file reads as empty without an error; loading the map refuses it |
| EarlyEnds.CheckedCutShort | fbx/container.go:911-925 | in another, the loaded map holds an entry of five bytes with a recorded compressed size of zero, which reads as empty without an error |
| EntryReader.WriteThenRead | fbx/container.go:630-683 | what a successful write appended is streamed back as exactly the source's data if the limits of the reader admit it, and otherwise as a part of it and then an error |
| Isolation.WrittenIsExtracted | fbx/container.go:351-404 | over a run: a transaction appends what the writer makes of a source, a commit whose map has the entry runs through and is acknowledged; then for the rest of the container's life, through any transactions, crashes and reopenings, as long as no commit drops the entry, Open succeeds on whatever a crash leaves, the entry is found with its size, and OpenReader refuses it only if it is over the limit and otherwise delivers exactly the bytes written, unless one of its chunks is |
| Isolation.OpenReaderAnswers | fbx/container.go:351-394 | on a committed container, before and after decoding: a path that is not in the map is not found, an entry over the limit is refused, any other is streamed |
| Isolation.StepGrows | fbx/tx.go:249-354 | every step but a crash leaves everything behind the header slots in place |
| Isolation.CommitOpGrows | fbx/tx.go:249-354 | a commit writes at the end of the file or a whole header slot, nowhere else |
| Isolation.ReaderIsolated | fbx/container.go:387-393 | whatever a reader has already read, and whether or not its chunks load, it still delivers the same after any later transactions, if the remaining references lie in the file and have a nonzero compressed size |
| Transaction.Tx.Commit | fbx/tx.go:235-371 | whatever the map, the file has seen only syncs, whole header slots and writes behind the point of appending; for a map with a plan, success means the whole planned script was performed and header and map installed, failure that some prefix of it was and both were kept; it fails exactly if an operation of the script is refused, at the first such operation and with its error; the transaction is closed either way |
| Transaction.Tx.AppendBlobs | fbx/tx.go:239-284 | directory and index are appended and synced, as planned if there is a plan, or the work stops at the first refused operation of it |
| Transaction.Container.Publish | fbx/tx.go:302-354 | the seven operations behind the first sync, in order, up to the first one refused, whose error is returned; success exactly if none is |
| Transaction.EncodesPlanned | fbx/tx.go:239-243 | whatever the order of iteration, the encoder produces the planned directory |
| Transaction.Tx.Put | fbx/tx.go:406-496 | chunks appended and the entry set, or the error of the write |
| Transaction.Tx.Add | fbx/tx.go:30-47 | a closed transaction or an existing path is an error and changes nothing; otherwise the file gains the written records, and on success the map exactly one entry, with the references, size and attributes asked for; on failure the map is as it was |
| Transaction.Tx.Upsert | fbx/tx.go:49-66 | the same, but an existing entry is first counted as dead, with its stored bytes, and then replaced |
| Transaction.Tx.Replace | fbx/tx.go:68-87 | the same, but a missing path is an error that changes nothing |
| Transaction.Tx.Remove | fbx/tx.go:89-104 | a closed transaction or a missing path is an error that changes nothing; otherwise exactly that entry goes and its stored bytes and one operation are counted |
| Transaction.Tx.RemoveMany | fbx/tx.go:106-123 | exactly the listed paths that exist go, each once, their number is returned, and their stored bytes and number are counted |
| Transaction.Tx.RemoveWhere | fbx/tx.go:173-190 | exactly the entries for which the predicate holds go, with counters independent of the order of iteration |
| Transaction.Tx.SetMeta | fbx/tx.go:193-209 | a closed transaction or a missing path is an error that changes nothing; otherwise that entry has the new metadata, and nothing else of it, of the map or of the counters changes |
| Transaction.Tx.SetMetaMany | fbx/tx.go:213-233 | all keys are updated, or the first missing key met ends the work with some of the others already updated |
| Transaction.Tx.MarkObsolete | fbx/tx.go:393-404 | the saturating counters after marking an entry |
| Transaction.PutKeepsMap | fbx/tx.go:406-496 | writing an entry keeps the map committable |
| Simulation.BeginMatches | fbx/container.go:518-531 | Begin takes a container and the machine to the same transaction |
| Simulation.OperationIsSteps | fbx/tx.go:30-233 | every operation on a transaction object, with or without an error, is a run of the machine: one append of all it wrote, and the new map and counters |
| Simulation.CommitIsSteps | fbx/tx.go:235-355 | however far a commit gets, it is a run of the machine: its start and one step for each operation performed |
| Simulation.EndMatches | fbx/tx.go:356-371 | a commit that has run through leaves the container with the new header and map, any other with those it had |
| Simulation.TransactionsAreRun | fbx/tx.go:30-391 | any number of transactions on the objects, each with any operations and any ending, are one run of the machine |
| Simulation.ObjectsCrashSafe | fbx/tx.go:235-371 | after any number of transactions on the objects, committed, failed or rolled back, every crash image of the file shows one of two versions, and only the committed map, with all that it says of each path, if the last commit has run through |
| Simulation.CreatedMatches | fbx/container.go:246-256 | the container that Create returns is a start for them |
| Simulation.AlikeCrash | fbx/tx.go:619-629 | the disks of object and machine, which may differ in how unsynced appends are cut up, have the same crash images |
| Simulation.CallKeepsMap | fbx/tx.go:30-233 | every operation, successful or not, leaves a map that can be committed |
| Transaction.NewEntryOk | fbx/tx.go:481-495 | an entry made by a successful write can be encoded and its records lie between the old and the new end of the file |
| Accounting.DeadBytesConserved | fbx/tx.go:256-262 | over any run of error-free committed transactions the header's dead bytes are all chunk bytes appended minus those of live entries, capped at 2^64 - 1 |
| Accounting.CallConserves | fbx/tx.go:30-233 | every operation without error conserves chunk bytes; removals and metadata append nothing |
| Accounting.SaturatingSumIsCapped | fbx/compaction_stats.go:26-31 | repeated saturating addition is one saturated sum |
| Accounting.HeaderTakesUp | fbx/tx.go:259-262 | the published header's counter takes up the transaction's |
| Accounting.FailedReplaceConservesIff | fbx/tx.go:57-63 | after a failed Upsert or Replace of an existing path, which appended the records of the chunks before the one that failed, conservation holds exactly when the stored size of the old entry equals theirs, or the counter is full with either |
| Accounting.FailsAfterIff | fbx/tx.go:594-642 | an operation fails, having appended so many bytes, exactly when these are the records before the first chunk that cannot be read, encoded or written |
| Accounting.FailedAddConservesIff | fbx/tx.go:30-47 | after a failed Add of a new path conservation holds exactly when the write failed at once or the counter was full before |
| Accounting.FailedReplaceOvercounts | fbx/tx.go:80-84 | a concrete failed Replace that leaves a live entry counted as dead |
| Packed.PackedOpens | fbx/pack.go:61-185 | create, pack, commit, open: on success the new file opens by its primary header, has exactly the paths of the original, each with the same stream for any codec and chunk sizes, same or cleared metadata, same mode and time (the time of packing for a zero one), same flags but for a mark as text or binary added where there was none, and its header counts no dead bytes and no churn |
| Packed.PackedCommittable | fbx/pack.go:130-174 | the commit of a packed map can be refused only for the file's size |
| Pack.PackSucceedsIff | fbx/pack.go:130-174 | packing succeeds exactly if every entry is within the size limit and its stream can be written where those before it end; otherwise the first entry that fails decides the error |
| Pack.PackEntries | fbx/pack.go:130-174 | the loop driving a reader and a transaction computes that, or rolls back at the first error |
| Locks.OneTransactionPerPath | fbx/container.go:486-532 | at most one transaction is active per path, per file and per container, and a held file lock implies the held path lock |
| Locks.NoDeadlock | fbx/write_lock.go:15-26 | no reachable deadlock, if the containers can be ranked, alike for the same path or file, so that every look through another container during a transaction goes down in rank |
| Locks.PackingNoDeadlock | fbx/pack.go:130-174 | so it is for packing, which reads one container while its transaction is on another of a different path and file |
| Locks.CrossReadDeadlocks | fbx/container.go:503-504 | reading through another handle of the same file from inside a transaction can deadlock with a Begin on that handle; then there is no such rank |
| Locks.LockTable.LockFor | fbx/write_lock.go:15-26 | a path keeps its lock for ever and different paths have different locks |

## Left out

- Runs.CrashAtomicity: a commit that starts while the primary slot is still torn, because its repair was refused. It
  rewrites the fixed slot too, so for a while only the records at the end of the file are left to recover from
  (`Tail.CommittedTailOpens`). Without a refused repair there is no such commit (`Runs.LoadingStep`).
- Runs.CrashAtomicity: one handle per file. A second handle does not reload the map or the header when it begins a
  transaction, so its commit overwrites what the first one committed.
- Runs.CrashAtomicity: a failed operation has no effect at all; partially performed writes, and data dropped by the
  system after a failed sync, are not modelled.
- Create.CrashSafety: starts from a finished Create; a crash inside Create, which syncs once, is not covered.
- Commit without syncing (NoSyncOnCommit): gives no guarantee against power loss.
- Transaction.Tx.Put: uses the sequential writer; the parallel one is tied to it by
  `Pipeline.ParallelRefinesSequential`. The choice of codec and chunk size from options and file type is a parameter.
- Begin: the object starts behind the loading of the map; loading is `OpenCode.Handle.EnsureLoaded`, locking `Locks`.
- Tail.CommittedTailOpens: the record search looks at the last 8 MiB of the file only; the theorem is about the moment
  right after a commit, when the record is at the end.
- Accounting.DeadBytesConserved: SetMetaMany is not among its calls; it is a series of SetMeta. Runs with rolled-back
  transactions are excluded: the bytes those appended are never counted.
- Packed.PackedOpens: the commit of the packed map is taken to be within the limits above; chunk counts fit in 32 bits.
- Pack.PackEntries: the reader's output is handed to the writer as a whole, not through a buffer; whether an entry
  without a mark looks like text is a parameter; verification before packing, progress calls and the final rename are
  not modelled.
- Locks.NoDeadlock: opening and closing of files, and threads with more than one open transaction, are not modelled.
- Chunk sources: the end of a reader is taken to recur when it is read again (the 4096-byte peek of the source drops the
  first report of an error).
- `Catalog.SortByPath` keeps equal paths in order where the source's sort does not; a transaction never has equal paths.
- The one-call forms of the operations on a container are Begin, one operation, and Commit or Rollback.
- Path normalisation, glob matching, prefixes and UTF-8 checks: paths are taken as already normalised keys.
- Text and compression heuristics, option defaults, progress callbacks, ZIP import and the command line: nothing deep.
- zstd and lz4, encoder caches, the buffer pool of the parallel writer, and performance.
- Indexes made by other writers: the validator does not require ranges to cover all rows, so completeness of lookup is
  stated for built indexes.
- Legacy layouts with data at offset 128.
- Verify and List: the first is a loop over chunk reads that are modelled, the second sorts the map.
- Kinds of errors below `mapErr` are already collapsed to the public ones.
