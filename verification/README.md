# Otaru: a model in Dafny

Otaru is a file system whose contents live, encrypted, in a blob store, and whose directory tree lives in a
database of inodes with snapshots and a transaction log. This project models its five hardest parts and proves
what each of them stands for.

* **Byte stack.** An open file is a list of pending write patches (`Patches`, `Overlay`, `FileWriteCache`) over a
  file cut into chunks (`ChunkedFile`, `ChunkHandles`), each chunk a blob of encrypted frames with a header
  (`ChunkFormat`, `ChunkStore`, `Btncrypt`). `OpenFile` is the top. The whole stack is proved to be one flat byte
  string: `OpenFile.OpenFile.ReadAt` reads the flat file that all `PWrite`, `Append` and `Sync` calls before it
  made, through patches, chunks, frames, the one-frame cache and the one-chunk handle cache. `Bytes` holds the
  vocabulary (zero extension, positioned overwrite, flat read).
* **Inode database.** `INodes` says what each operation does to a state and what replaying it does; `INodeGraph`
  what it does to the directory entries; `INodeLaws` when it goes through and what becomes of every field;
  `INodeDB` is the database object with rollback and recovery; `FsckWalk` is the walk from the root; `BlobGC` the
  collector that trusts it; `FileSystem` the transactions the file system makes. The log replays from the last
  snapshot to the state at hand at every moment, so a failed transaction is undone exactly, and undoing never starts
  another undoing.
* **Transaction log.** `TxLog` is the batched log as a protocol with refused, lost and repeated commits, and with
  deletion; `TxLogIO` the object and the two halves of a query; `LogGC` snapshots, log and both collectors
  together; `RingCache` the ring of recent transactions in front of a log.
* **Cache entry.** `CacheEntry` is the twelve-state protocol of one cached blob with fetches, writes and writebacks
  as separate steps; `CachedBlobEntry` is the object, each of whose critical sections is a step.
* **Scheduler.** `Scheduler` is the scheduling loop, the runners and aborts as a protocol over job states.

Parameters of the model: the cipher (`Btncrypt.Cipher`, a pair with `open(seal(n, p)) == p` and the length law),
the header encoding (`ChunkFormat.Format`), both with laws that can be met (`Btncrypt.CipherExists`,
`ChunkFormat.LawfulExists`), the version a cached blob carries (`CacheEntry.Ver`), clock readings,
which blob paths can be generated, and the failures of the stores, each a choice made where the source looks; those
left out are named at the end.

Where the source does not do what one would expect, the model follows it and says exactly when:

* A positioned read of a chunk far past its end panics: exactly when the frame of the offset starts more than 28
  bytes past the payload (`ChunkStore.ChunkIO.PRead`).
* A chunk write past the greatest payload length fails after writing the frames before the last one; the cached
  frame loses its last-frame mark exactly when the payload already reaches past the start of the last possible
  frame and the write runs past that frame's end (`ChunkStore.ChunkIO.PWrite`).
* A write to a chunked file keeps it free of gaps exactly when the chunk that holds its offset starts no later
  than the file ends; after any other write that stores something, a one-byte read of the byte before the new
  chunk reports two bytes (`ChunkedFile.MisreadAfterGap`).
* An empty write past the end raises the recorded size and nothing else (`OpenFile.OpenFile.PWrite`).
* `RestoreVersion` uses the version asked for only to refuse a snapshot that is newer; it replays the whole log,
  and when it refuses, the snapshot stays in place of the state (`INodeDB.DB.RestoreVersion`).
* Undoing a transaction forgets all node locks and starts the tickets again (`INodeDB.Undone`).
* A rename does not look where its destination lies. What is moved stays reachable exactly when the destination
  directory does not lie within it (`FsckWalk.RenameReachable`, with an instance in `FsckWalk.RenameIntoItself`).
* Restoring that meets a logged operation that fails starts over without end (`INodeDB.RestoreEnds`).
* Going back to an older snapshot because newer ones cannot be read forgets numbers that were given out since. It
  keeps the newer ones usable exactly when there are none such (`LogGC.UndoExact`, `LogGC.UndoneTooFar`, with a whole
  history in `LogGC.FallbackRun`).
* In a cache entry, once a writeback that was raced is over, and as long as no other write begins, a write that ends
  panics (`CacheEntry.OutlivedPanics`); it ends well exactly when it finds the mark of a later write
  (`CacheEntry.OutlivedEnds`), which is then left without (`CacheEntry.BorrowedMark`).
* A write that begins while the entry is marked outside of a writeback panics (`CacheEntry.BeginPanics`), and so does
  closing during a fetch if the mode comes down to abandoning; in the other modes that is an error
  (`CacheEntry.ClosePanics`).
* The error of closing the backend writer is not looked at. A writeback then ends clean, with the new version recorded
  and the backend blob as it was (`CacheEntry.WritebackCopies`, with a whole run in `CacheEntry.LostRun`).
* Closing an entry "if needed" never writes back: a dirty entry is closed with nothing written
  (`CacheEntry.ClosedUnwritten`), while closing with writing back waits for it (`CacheEntry.ClosedIsRecorded`).
* An older cached blob is taken for clean when the backend blob is empty; its recorded length is then not that of what
  readers see (`CacheEntry.OpenedState`, `CacheEntry.SizeIsLength`).
* `FileWriteCache.Right` is the end of the first patch (`FileWriteCache.FileWriteCache.Right`).

Some predicates are carried "folded": a quantifier over a dummy variable hides the definition until a proof
mentions `Unfolded`. It changes nothing in what is stated.

`dafny verify dfyconfig.toml` checks the whole project.

## Model

| member | source | states |
|---|---|---|
| Patches.FindLRIndex | filewritecache/patch.go:55-84 | The indices returned delimit exactly the patches that meet the new one, and the search stays within the list because the sentinel ends it. |
| Patches.Replace | filewritecache/patch.go:86-106 | The list with a range replaced, by moving elements in place or by building a new list. |
| Patches.Merge | filewritecache/patch.go:108-148 | The list stays ordered, disjoint, free of empty patches and ended by the sentinel; its pending bytes become the old ones overwritten by the new patch; it grows by at most two. |
| Patches.SplicedMeaning | filewritecache/patch.go:108-148 | Position by position, the pieces kept left and right of the new patch, put in place of the patches it meets, mean the old list overwritten by the new patch. |
| Patches.SplicedOrdered | filewritecache/patch.go:108-148 | Splicing in the pieces keeps the list ordered and disjoint. |
| Patches.Truncate | filewritecache/patch.go:150-167 | The list stays valid and keeps exactly the pending bytes below the new size. |
| Patches.CutMeaning | filewritecache/patch.go:150-167 | Cutting the list at a size drops exactly the pending bytes from that size up. |
| Patches.PendingBounds | filewritecache/filewritecache.go:46-110 | Every pending byte lies before the end of the last patch, and the byte before that end is pending: past it a read takes the backing file alone. |
| Overlay.OverlaidMerge | filewritecache/filewritecache.go:26-34 | Over any backing file, merging a patch is a positioned write to the logical file. |
| Overlay.AbsorbedSameFile | filewritecache/filewritecache.go:131-156 | Writing back some of the patches, even partly, leaves the logical file as it was. |
| Overlay.AllLanded | filewritecache/filewritecache.go:131-156 | Once every patch is in the backing file, the backing file is the logical file. |
| Overlay.RunsSpec | filewritecache/filewritecache.go:131-156 | The writes of a write-back are non-empty, in order, never touch one another, and together hold exactly the pending bytes: one write for each maximal run. |
| Overlay.RunsSynced | filewritecache/filewritecache.go:131-156 | Over any flat backing file: making all the writes of a write-back gives the logical file, and stopping anywhere, even within one of them, leaves the logical file as it was. |
| Overlay.WritesLand | filewritecache/filewritecache.go:131-156 | Positioned writes that keep apart all land, and change nothing else. |
| FileWriteCache.FileWriteCache.PWrite | filewritecache/filewritecache.go:26-34 | Wherever it lies, the new bytes win over the pending ones and all others stay; from offset 0 up, a cached write is a positioned write to the logical file, whatever the backing file is, and one in reach keeps the pending patches in reach. |
| FileWriteCache.FileWriteCache.ReadZeroFilled | filewritecache/filewritecache.go:64-83 | Bytes before a patch come from the backing file, zero where that has ended. |
| FileWriteCache.FileWriteCache.ReadPatch | filewritecache/filewritecache.go:60-99 | The turn of a read at one patch adds exactly the logical file's next bytes, or fails with those got before. |
| FileWriteCache.FileWriteCache.ReadAtThrough | filewritecache/filewritecache.go:46-110 | Count and bytes are those of the patches over the zero-extended backing file; on a failed backing read, what was got before is right. |
| FileWriteCache.FileWriteCache.ContentLen | filewritecache/filewritecache.go:112-118 | The sum of the patch lengths. |
| FileWriteCache.PendingCount | filewritecache/filewritecache.go:112-118 | That sum is the number of positions at which a byte is pending. |
| FileWriteCache.FileWriteCache.Right | filewritecache/filewritecache.go:158-164 | The end of the first patch: it is the end of what is pending if and only if there is exactly one patch, and the greatest offset when there is none. |
| FileWriteCache.FileWriteCache.NeedsSync | filewritecache/filewritecache.go:120-129 | Exactly when there are too many patches or too many pending bytes. |
| FileWriteCache.FileWriteCache.Sync | filewritecache/filewritecache.go:131-156 | On success the backing file is the logical file and exactly the maximal runs were written, one write each; on a failure, even half way through a write, the logical file is unchanged and the patches are kept for a retry. |
| FileWriteCache.FileWriteCache.SyncTurn | filewritecache/filewritecache.go:131-156 | The turn of a write-back at one patch: it joins the gathered run when it touches it, and otherwise that run is written first. |
| FileWriteCache.FileWriteCache.Flush | filewritecache/filewritecache.go:131-156 | Writing one gathered run, completely or partly, keeps the logical file. |
| FileWriteCache.ReachingMerge | filewritecache/filewritecache.go:26-34 | A write in reach of the logical file keeps every pending run in reach of what will be there when it is written back. |
| Btncrypt.Cipher.FrameRoundTrip | btncrypt/btncrypt.go:90-123 | Decrypting an encrypted frame gives back its payload. |
| Btncrypt.EncStreamAppend | btncrypt/btncrypt.go:162-221 | The frames of a plaintext are those of a whole number of full frames followed by those of the rest. |
| Btncrypt.EncStreamCarries | btncrypt/btncrypt.go:162-221 | The frames of a plaintext, wherever they lie in a source, are what a reader of that plaintext must find there. |
| Btncrypt.CarriesUnique | btncrypt/btncrypt.go:263-309 | A source carries at most one plaintext of a given length. |
| Btncrypt.WriteCloser.EmitFrame | btncrypt/btncrypt.go:162-168 | One more frame after the full ones emitted so far, or, when the destination refuses it, none. |
| Btncrypt.WriteCloser.Write | btncrypt/btncrypt.go:170-203 | All bytes are taken and appended to the plaintext, whatever mixture of buffering and direct frames that takes; when the destination refuses a frame, it is left with exactly the full frames before that one. |
| Btncrypt.WriteCloser.Close | btncrypt/btncrypt.go:205-221 | However the plaintext was cut into writes, the stream is the frames of the whole; a length other than the declared one, or a last frame refused, is an error. |
| Btncrypt.Encrypt | btncrypt/btncrypt.go:223-236 | The frames of the plaintext. |
| Btncrypt.Reader.DecryptNextFrame | btncrypt/btncrypt.go:263-279 | On a source that carries the plaintext, the next frame's part of it is ready to be read. |
| Btncrypt.Reader.Read | btncrypt/btncrypt.go:281-309 | Reads of any sizes deliver the plaintext in order and full, then end of file. |
| Btncrypt.Decrypt | btncrypt/btncrypt.go:321-333 | The one plaintext of the given length that the envelope carries, if it carries one. |
| Btncrypt.RoundTrip | btncrypt/btncrypt.go:223-333 | Decrypting what was encrypted gives the plaintext, of any length. |
| Btncrypt.EncStreamAt | btncrypt/btncrypt.go:162-221 | Frame i of a stream lies at i times the size of a full frame and is sealed with a nonce of its own draw. |
| Btncrypt.FrameLayout | btncrypt/btncrypt.go:90-123 | A frame is its twelve-byte nonce followed by what was sealed with it, 28 bytes longer than its payload. |
| Btncrypt.CipherExists | btncrypt/btncrypt.go:90-123 | The laws asked of a cipher can be met. |
| ChunkFormat.Format.HeaderRoundTrip | chunkstore/chunkheader.go:38-124 | A header written is the header read back, and it fills its fixed space. |
| ChunkFormat.Format.HeaderCut | chunkstore/chunkstore.go:26-38 | A header cut short has no version, except that one cut within its first three bytes counts as version 0. |
| ChunkFormat.AdvancedIs | chunkstore/chunkstore.go:260 | Counting versions is counting modulo 2 to the 64th: fewer steps than that lead to another version. |
| ChunkFormat.Format.WriteHeader | chunkstore/chunkheader.go:38-85 | The bytes of the header, for every header whose payload length is allowed. |
| ChunkFormat.FormatExists | chunkstore/chunkheader.go:38-124 | For every lawful cipher the laws asked of the header encoding can be met: every header of a 32-bit length and a 64-bit version fits its fixed space. |
| ChunkFormat.LawfulExists | chunkstore/chunkheader.go:38-124 | So a lawful format exists, and what is proved of every lawful format is proved of something. |
| ChunkFormat.BodyIffCarries | chunkstore/chunkstore.go:196-265 | Frames addressed by index and frames read in sequence are the same layout: a blob stores a payload frame by frame if and only if it carries it as a stream. |
| ChunkFormat.OtherFrameKept | chunkstore/chunkstore.go:196-265 | Frames tile the blob: rewriting one leaves every other in place. |
| ChunkFormat.FrameWritten | chunkstore/chunkstore.go:246-265 | Writing a frame into a blob that stores a payload stores the payload with that frame replaced. |
| ChunkFormat.HeaderWritten | chunkstore/chunkstore.go:463-472 | Writing the header leaves the body alone and makes the blob alone hold the payload. |
| ChunkFormat.StreamedBlobHolds | chunkstore/chunkstore.go:40-46 | What a sequential writer produces is a blob that holds its plaintext for random access too. |
| ChunkStore.MemBlobHandle.PRead | blobstore/memblobstore.go:19-28 | The bytes at the offset, or an error when they are not all there. |
| ChunkStore.MemBlobHandle.PWrite | blobstore/memblobstore.go:30-41 | A positioned write with zero extension. |
| ChunkStore.ChunkIO.EnsureHeader | chunkstore/chunkstore.go:133-149 | The header in memory has the length of the payload and the version the blob is of; an empty blob is an empty payload of version 1. |
| ChunkStore.ChunkIO.ExpandLengthBy | chunkstore/chunkstore.go:175-194 | The length grows unless it would exceed the greatest one. |
| ChunkStore.ChunkIO.ReadContentFrame | chunkstore/chunkstore.go:201-236 | The decrypted stored frame, marked as the last one exactly if it is; past the end, an error or a panic by where the frame starts. |
| ChunkStore.ChunkIO.ReadCachedContentFrame | chunkstore/chunkstore.go:238-244 | The cached frame answers as the stored one would. |
| ChunkStore.ChunkIO.WriteContentFrame | chunkstore/chunkstore.go:246-265 | The blob stores the payload with the frame replaced, the version is the next one, one more nonce is drawn, and no frame is cached any more. |
| ChunkStore.ChunkIO.PRead | chunkstore/chunkstore.go:267-309 | Every outcome is determined by the payload: the bytes asked for, an error, or a panic exactly when the offset's frame starts more than the frame overhead past the payload. |
| ChunkStore.ChunkIO.ZeroFill | chunkstore/chunkstore.go:328-389 | A gap up to the offset is filled with zeros, frame by frame; the version goes up by the number of frames those positions lie in. |
| ChunkStore.ChunkIO.WriteToFrame | chunkstore/chunkstore.go:391-458 | One turn of the write loop puts its part of the bytes into one frame, growing the last frame where needed. |
| ChunkStore.ChunkIO.PWrite | chunkstore/chunkstore.go:311-461 | A positioned write on the flat array, for every offset and length, with the exact effect and the exact damage to the cached frame when it would exceed the greatest length; the version goes up by exactly the number of frames filled and written, also of a write that fails half way. |
| ChunkStore.ChunkIO.Sync | chunkstore/chunkstore.go:463-476 | Afterwards the blob alone holds the payload, so that a sequential reader delivers it, and the version asked of the blob is the one counted in memory. |
| ChunkStore.FailedWrite | chunkstore/chunkstore.go:391-458 | How much of a write past the greatest length is in place, and exactly when the cached frame loses its mark. |
| ChunkStore.WriteNewVersion | chunkstore/chunkstore.go:246-265 | A write of at least one byte makes another version, whatever it writes and wherever the 64-bit counter stands. |
| ChunkStore.NewChunkWriter | chunkstore/chunkstore.go:40-46 | A sequential writer after the header, for every allowed length, on any destination. |
| ChunkStore.NewChunkReader | chunkstore/chunkstore.go:57-71 | A sequential reader of a blob that holds a payload, however it came about, delivers exactly that payload. |
| ChunkHandles.Handles.CloseCached | chunkstore/chunkedfile.go:121-141 | Closing the open chunk loses nothing: its blob alone holds its payload and its version. |
| ChunkHandles.Handles.Open | chunkstore/chunkedfile.go:143-180 | Reopening a chunk, or switching to it from another one, loses nothing and keeps every version; a new chunk is empty and starts from version 1. |
| ChunkHandles.Handles.Write | chunkstore/chunkedfile.go:182-202 | A positioned write to one chunk; no other chunk changes, the new length is reported, and the version goes up by the number of frames touched. |
| ChunkHandles.Handles.Read | chunkstore/chunkedfile.go:314-327 | The chunk's bytes; no chunk changes. |
| ChunkedFile.FlatWrite | chunkstore/chunkedfile.go:257-277 | A write to one chunk of a gap-free array is the same write to the flat file. |
| ChunkedFile.FlatAppend | chunkstore/chunkedfile.go:279-304 | Appending a chunk at its aligned offset appends to the flat file, and chunk k stays at k times the split size with all chunks but the last full. |
| ChunkedFile.ChunkedFileIO.NewFileChunk | chunkstore/chunkedfile.go:104-112 | A chunk with a blob path that no blob has, unless none can be generated. |
| ChunkedFile.ChunkedFileIO.WriteExisting | chunkstore/chunkedfile.go:217-277 | The part of a write that falls into chunks already there. |
| ChunkedFile.ChunkedFileIO.AppendChunks | chunkstore/chunkedfile.go:279-304 | The rest of a write, in new chunks. |
| ChunkedFile.ChunkedFileIO.PWrite | chunkstore/chunkedfile.go:204-312 | In reach, a positioned write to the flat file that keeps the array gap-free, or a prefix of it when no blob path can be generated; out of reach, exactly the gap it leaves. The chunk array is saved when it changed. |
| ChunkedFile.ChunkedFileIO.ReadAt | chunkstore/chunkedfile.go:329-376 | On a gap-free array, count and bytes of the flat file; before a gap, the count of two. |
| ChunkedFile.ChunkedFileIO.Size | chunkstore/chunkedfile.go:378-383 | The length of the flat file. |
| ChunkedFile.MisreadAfterGap | chunkstore/chunkedfile.go:329-376 | Being in reach is exact: after any write out of reach that stores something the array no longer reads like a file. |
| OpenFile.OpenFile.constructor | filesystem/filesystem.go:355-406 | A new file is empty. |
| OpenFile.OpenFile.SyncCache | filesystem/filesystem.go:582-586 | Writing back changes where the bytes are, never what the file is, and can be retried. |
| OpenFile.OpenFile.WriteCached | filesystem/filesystem.go:578-586 | A cached write with its forced write-back is a positioned write to the flat file, also when the write-back fails; when it succeeds, no more is pending than the two limits allow. |
| OpenFile.OpenFile.PWrite | filesystem/filesystem.go:569-600 | For every run of writes in reach and write-backs the file is the flat file those writes make; the recorded size is its length, except after an empty write past it. |
| OpenFile.OpenFile.Append | filesystem/filesystem.go:602-627 | Appends to the flat file at the recorded size. |
| OpenFile.OpenFile.ReadAt | filesystem/filesystem.go:629-634 | Reading through patches, chunks and frames reads the flat file. |
| OpenFile.OpenFile.Sync | filesystem/filesystem.go:636-644 | The file is unchanged, and on success it is all in the chunks. |
| INodes.AppliedWeaker | inodedb/inodedb.go:109-137 | An operation that goes through on a state goes through, with the same effect, at any other time on any state with the same nodes, fewer locks and no fewer free numbers. |
| INodes.CreatedWeaker | inodedb/dboperation.go:65-92 | The same for creating a node: the ID test and the lock test only get weaker. |
| INodes.LinkedWeaker | inodedb/dboperation.go:101-126 | The same for a hard link. |
| INodes.RenamedWeaker | inodedb/dboperation.go:274-323 | The same for a rename, also within one directory. |
| INodes.RemovedWeaker | inodedb/dboperation.go:331-360 | The same for a removal. |
| INodes.AppliedAllWeaker | inodedb/inodedb.go:303-310 | The same for all operations of a transaction in turn. |
| INodes.AppliedAllJoin | inodedb/inodedb.go:303-310 | Operations are applied in turn: a list of them followed by another is the one after the other. |
| INodes.SameRefused | inodedb/dboperation.go:11-368 | An operation that is refused is refused with the same error on any state that differs only in what a replay does not bring back. |
| INodes.CommittedWeaker | inodedb/inodedb.go:294-323 | The same for a whole transaction with its number. |
| INodes.FailedPrefix | inodedb/inodedb.go:303-310 | A failing operation fails the transaction whatever follows it. |
| INodes.AppliedFrame | inodedb/dboperation.go:27-368 | An operation leaves version, locks and tickets alone, never lowers the last ID, and keeps every node's number at or below it. |
| INodes.SnapshotWeaker | inodedb/snapshot.go:10-57 | A snapshot, which keeps neither parents nor locks nor tickets, refuses nothing the state accepts. |
| INodeGraph.RenamedEntries | inodedb/dboperation.go:274-323 | After a rename the destination entry names what the source entry named, the source entry is gone, every other entry is as before, and files are untouched. |
| INodeGraph.RenamedParent | inodedb/dboperation.go:313-315 | A directory that is renamed records its new parent. |
| INodeGraph.RemovedEntries | inodedb/dboperation.go:331-360 | Exactly one entry is gone, and what it named had no entries. |
| INodeGraph.CreatedEntries | inodedb/dboperation.go:65-92 | One new node, no new entry. |
| INodeGraph.LinkedEntries | inodedb/dboperation.go:101-126 | Exactly one new entry, naming an existing node. |
| INodeGraph.UpdatedEntries | inodedb/dboperation.go:134-264 | Updates of chunks, size and attributes change no entry and no other node. |
| INodeGraph.UpdatedNode | inodedb/dboperation.go:134-264 | An update changes the one field it says and leaves all others; a new size also sets the time. |
| INodeGraph.CreatedGraph | inodedb/dboperation.go:65-92 | Creating a node keeps the shape of the graph and leaves the new node unnamed. |
| INodeGraph.RenamedGraph | inodedb/dboperation.go:274-323 | A rename keeps every node named at most once and the root not at all, whatever it moves where. |
| INodeGraph.RemovedGraph | inodedb/dboperation.go:331-360 | A removal keeps the shape of the graph. |
| INodeGraph.CommittedGraph | filesystem/filesystem.go:160-216 | Every transaction the file system makes keeps it: each node named at most once, the root by none, every entry leading to a node. |
| INodeGraph.SameCoreGraph | inodedb/snapshot.go:95-105 | The shape does not depend on what a snapshot leaves out. |
| INodeLaws.InitializedLaw | inodedb/dboperation.go:27-47 | Exactly in an empty database: one node, the root, with every field given. |
| INodeLaws.CreatedLaw | inodedb/dboperation.go:65-92 | When a node is created, in terms of ticket, lock, type and number, with which error not, and every field of the new node. |
| INodeLaws.LinkedLaw | inodedb/dboperation.go:101-126 | When an entry is added and with which error not; one directory has one entry more and another time, and nothing else changes. |
| INodeLaws.RemovedLaw | inodedb/dboperation.go:331-360 | When an entry is removed and with which error not; one directory has one entry less and another time, and nothing else changes. |
| INodeLaws.RenamedLaw | inodedb/dboperation.go:274-323 | A rename goes through if and only if both directories are there and not locked, the source has the entry and what it names exists, or it is to its own place; what has the new name does not matter. Otherwise, which error. |
| INodeLaws.RenamedFields | inodedb/dboperation.go:313-322 | After a rename: what was moved has the new parent, the two directories another time, and every other field of every node is as before. |
| INodeLaws.UpdatedLaw | inodedb/dboperation.go:134-264 | When an update goes through, with which error not, and that it changes no other node. |
| INodeLaws.SnapshotLaw | inodedb/snapshot.go:10-150 | What a snapshot keeps of every node, field by field, times included; parents, locks and tickets are forgotten. |
| INodeLaws.SameCoreLaw | inodedb/snapshot.go:63-117 | What a replay brings back of a node: every field but the time and, of a directory, the parent. |
| INodeDB.DBState.AddNewNode | inodedb/inodedb.go:109-122 | A node with a new number that is not below the last one, or nothing and an error. |
| INodeDB.DBState.CheckLock | inodedb/inodedb.go:124-137 | Whether the lock presented opens the node. |
| INodeDB.DBState.ApplyInitialize | inodedb/dboperation.go:27-47 | The root directory in an empty database, or nothing and an error. |
| INodeDB.DBState.ApplyCreateNode | inodedb/dboperation.go:65-92 | The state `INodes.Created` describes, or nothing and its error. |
| INodeDB.DBState.ApplyHardLink | inodedb/dboperation.go:101-126 | The state `INodes.Linked` describes, or nothing and its error. |
| INodeDB.DBState.ApplyUpdateFile | inodedb/dboperation.go:134-175 | New chunks, or a new size and time, for a file whose ticket is held. |
| INodeDB.DBState.ApplyUpdateAttrs | inodedb/dboperation.go:183-264 | One attribute of one node changed. |
| INodeDB.DBState.ApplyRename | inodedb/dboperation.go:274-323 | The state `INodes.Renamed` describes, or nothing and its error; `INodeLaws.RenamedLaw` says when. |
| INodeDB.DBState.ApplyRemove | inodedb/dboperation.go:331-360 | The state `INodes.Removed` describes, or nothing and its error. |
| INodeDB.DBState.Apply | inodedb/dboperation.go:11-368 | An operation goes through completely or changes nothing. |
| INodeDB.DBState.ApplyAll | inodedb/inodedb.go:303-310 | The operations of a transaction in turn, with a clock reading for each; fails exactly when one of them does, with its error. |
| INodeDB.SimpleDBTransactionLogIO.AppendTransaction | inodedb/simpledbtransactionlogio.go:22-28 | The log with one more transaction, or a refusal that leaves it alone. |
| INodeDB.SimpleDBTransactionLogIO.QueryTransactions | inodedb/simpledbtransactionlogio.go:30-38 | Exactly the logged transactions from the number up, in log order. |
| INodeDB.DBStateSnapshotIO.SaveSnapshot | inodedb/blobstoredbstatesnapshotio/blobstoredbstatesnapshotio.go:44-88 | On success the snapshot kept is one of the state at hand, or one of the same version kept before; on a failure it is the one kept before. |
| INodeDB.DBStateSnapshotIO.RestoreSnapshot | inodedb/blobstoredbstatesnapshotio/blobstoredbstatesnapshotio.go:90-140 | A new state with what the kept snapshot holds, or none exactly when nothing is kept. |
| INodeDB.ForwardLogged | inodedb/inodedb.go:294-323 | A replay that refuses nothing the state accepts takes the transaction the state took, and again refuses nothing the new state accepts. |
| INodeDB.SoundLogged | inodedb/inodedb.go:294-323 | Logging a committed transaction keeps the log replayable from the last snapshot to the state at hand. |
| INodeDB.SoundUndone | inodedb/inodedb.go:256-292 | Snapshot plus log gives back the nodes and the version at hand, but for parents, times and locks. |
| INodeDB.SoundSaved | inodedb/inodedb.go:406-412 | After a snapshot of the state at hand the log so far is no longer needed. |
| INodeDB.ReplayStep | inodedb/inodedb.go:281-287 | A replay never meets a failing operation. |
| INodeDB.DB.RestoreVersion | inodedb/inodedb.go:256-292 | Every outcome, whenever restoring ends at all: no snapshot, a snapshot that is too new, a gap in the log, or the state that snapshot and log amount to. |
| INodeDB.RestoreEnds | inodedb/inodedb.go:256-323 | Restoring, unrolled to any depth of restoring within restoring, ends if and only if the snapshot is too new or no operation fails in the replay, and then at the first level; a logged operation that fails makes it start over without end. |
| INodeDB.DB.ReplayLog | inodedb/inodedb.go:281-287 | The state the log amounts to, or a refusal exactly at a gap. |
| INodeDB.DB.ApplyTransactionInternal | inodedb/inodedb.go:294-323 | Commits exactly when its number fits, all operations go through and the log takes it; otherwise everything is undone, or panics exactly when there is no snapshot. The recursion with `RestoreVersion` ends at depth one. |
| INodeDB.DB.Rollback | inodedb/inodedb.go:304-317 | After a failed transaction nodes and version are those before it. |
| INodeDB.DB.ApplyTransaction | inodedb/inodedb.go:325-331 | The database stays recoverable and its graph keeps its shape over every run of transactions, failed ones included; a transaction that fails names the first reason: its number, its operation, or the log. |
| INodeDB.DB.LockNode | inodedb/inodedb.go:348-369 | A lock on a node nobody has locked, with a ticket above all given out since the last rollback; a number allocated is that of no node. |
| INodeDB.DB.UnlockNode | inodedb/inodedb.go:371-383 | A lock opens for its own ticket only; with any ticket at all a node that is not locked is left unlocked. |
| INodeDB.DB.Sync | inodedb/inodedb.go:406-412 | When it succeeds the snapshot kept is of the version at hand, and replaying the log adds nothing to it; when it fails the snapshot kept is the one before; the database stays recoverable either way. |
| INodeDB.DB.Fsck | inodedb/inodedb.go:447-455 | The blobs in which a reachable file has a chunk, and each reachable node that is missing, once. |
| INodeDB.NewEmptyDB | inodedb/inodedb.go:218-240 | On empty storage, a recoverable database with a snapshot and an empty root directory; a refusal on any other; a panic when the log refuses; when saving fails, an error that leaves the first transaction logged and no snapshot. |
| INodeDB.NewDB | inodedb/inodedb.go:242-249 | Opens exactly when there is a snapshot from which the log replays, with the state they amount to; what a sound database left behind gives back its nodes, its version and its shape. |
| FileSystem.CreateNode | filesystem/filesystem.go:191-216 | Succeeds exactly when it may; then one new node under a new number with the attributes given and nothing in it, exactly one new entry, every other node as it was, and all locks as before; otherwise nothing changed. |
| FileSystem.Rename | filesystem/filesystem.go:160-174 | Succeeds exactly when both are directories that are not locked and the source has the entry; then the entry is moved and replaces what was there, and no node loses an attribute or content; otherwise nothing changed. |
| FileSystem.Remove | filesystem/filesystem.go:176-189 | Succeeds exactly when the directory is not locked and has the entry, and that names no directory with entries; then exactly the entry is gone; otherwise nothing changed. |
| FileSystem.Do | inodedb/inodedb.go:294-331 | Any single operation as a transaction: done completely, or undone completely with its error, with the database running on. |
| FileSystem.SetAttr | filesystem/filesystem.go:295-316 | Sets exactly the valid attributes of one node, and nothing else of any node, in one transaction, or nothing; it fails for a node that does not exist exactly when there is something to set. |
| FileSystem.CreateAndLink | filesystem/filesystem.go:205-208 | When creating and linking go through, exactly, and what they leave. |
| FsckWalk.PathUnique | inodedb/inodedb.go:414-445 | A node named at most once is reached by at most one path from the root. |
| FsckWalk.PathDistinct | inodedb/inodedb.go:414-445 | A path from the root never comes back to a node, so the walk ends even when renames have built cycles elsewhere. |
| FsckWalk.BlobPathsAt | inodedb/inodedb.go:426-428 | A file contributes one blob path for each of its chunks, in their order. |
| FsckWalk.FsckRecursive | inodedb/inodedb.go:414-445 | Ends; meets each node below the one given once and no other; finds the blobs of the files among them in that order; reports exactly those that are missing. |
| FsckWalk.Walk | inodedb/inodedb.go:447-455 | From the root: meets every reachable node once, finds exactly the blobs in which a reachable file has a chunk, and reports each reachable node that is missing once. |
| FsckWalk.RenameReachable | inodedb/dboperation.go:274-323 | What is moved into a reachable directory stays reachable if and only if that directory does not lie within what is moved. |
| FsckWalk.RenameIntoItself | inodedb/dboperation.go:274-323 | Renaming /a to /a/b/c goes through and cuts both directories off. |
| BlobGC.ListUnused | gc/blobstoregc/gc.go:60-73 | The listed blobs that are neither used nor metadata, in order. |
| BlobGC.MetadataPaths | metadata/metadata.go:12-14 | Metadata are the paths that begin with META_. |
| BlobGC.UnusedHas | gc/blobstoregc/gc.go:60-73 | Membership in that list, both ways. |
| BlobGC.Sweep | gc/blobstoregc/gc.go:78-92 | A beginning of the list is removed; all of it on success; none of it in a dry run. |
| BlobGC.GC | gc/blobstoregc/gc.go:24-97 | However it ends, only blobs in which no reachable file has a chunk and that are not metadata are removed; on success, outside of a dry run, exactly all of those; nothing at all while a reachable node is missing. |
| TxLog.StepInv | gcloud/datastore/dbtransactionlogio.go:119-197 | Every step of append, take, write, acknowledge, rollback and deletion keeps: nothing from the floor up is lost, stored transactions are a beginning of the log, pending ones its end, and no batch is split. |
| TxLog.AppendInv | gcloud/datastore/dbtransactionlogio.go:119-129 | Appending keeps it. |
| TxLog.TakeInv | gcloud/datastore/dbtransactionlogio.go:141-148 | Taking the batch keeps it. |
| TxLog.WriteInv | gcloud/datastore/dbtransactionlogio.go:168-189 | A commit keeps it, whether or not the caller gets to know. |
| TxLog.WriteStored | gcloud/datastore/dbtransactionlogio.go:61-90 | A batch put under the number of its last transaction overwrites nothing that is still wanted. |
| TxLog.AcknowledgeInv | gcloud/datastore/dbtransactionlogio.go:191-193 | Forgetting the batch once it is acknowledged keeps it. |
| TxLog.RollbackInv | gcloud/datastore/dbtransactionlogio.go:150-155 | Putting the batch back to the front keeps it. |
| TxLog.TrimInv | gcloud/datastore/dbtransactionlogio.go:304-313 | Dropping gathered transactions below a number keeps it. |
| TxLog.DeleteInv | gcloud/datastore/dbtransactionlogio.go:321-367 | Deleting any batches below the floor keeps it, although whole batches go by their last number. |
| TxLog.RunInv | gcloud/datastore/dbtransactionlogio.go:119-197 | It holds throughout every run, over which the log only grows and stored transactions that are wanted stay stored. |
| TxLog.GatheredKnown | gcloud/datastore/dbtransactionlogio.go:215-272 | What a query gathers from memory at one moment and from the store at a later one is the log as far as it is known: nothing missed, nothing invented. |
| TxLogIO.SortUnique | gcloud/datastore/dbtransactionlogio.go:279-289 | One of each number, in increasing order, the same transactions. |
| TxLogIO.QueryAnswer | gcloud/datastore/dbtransactionlogio.go:215-293 | With any steps between its halves, a query answers with all transactions from the number up of a beginning of the log no shorter than the log was when the query began. |
| TxLogIO.AnswerNow | gcloud/datastore/dbtransactionlogio.go:215-293 | With no step in between, with all of the log from the number up. |
| TxLogIO.DBTransactionLogIO.AppendTransaction | gcloud/datastore/dbtransactionlogio.go:119-129 | Any transaction is gathered, or refused; the invariant survives if and only if its number is above all before, and then it is a step of the protocol. |
| TxLogIO.DBTransactionLogIO.TakeBatch | gcloud/datastore/dbtransactionlogio.go:141-148 | Nothing is being committed when a sync takes the batch, so the panic there is never reached. |
| TxLogIO.DBTransactionLogIO.Sync | gcloud/datastore/dbtransactionlogio.go:131-197 | On success all that is wanted is in the store; on a failure the batch is gathered as before, and the store may or may not have it. |
| TxLogIO.DBTransactionLogIO.ReadMemory | gcloud/datastore/dbtransactionlogio.go:219-230 | The pending transactions from the number up. |
| TxLogIO.DBTransactionLogIO.ReadStore | gcloud/datastore/dbtransactionlogio.go:243-272 | The stored transactions from the number up, found by looking only at batches under such a number; or an error and nothing. |
| TxLogIO.DBTransactionLogIO.QueryTransactionsOnce | gcloud/datastore/dbtransactionlogio.go:215-293 | One attempt: exactly what is pending or stored from the number up, in order, all of it appended and nothing from the floor up missing; or an error. |
| TxLogIO.DBTransactionLogIO.QueryTransactions | gcloud/datastore/dbtransactionlogio.go:207-213 | With retries, the answer of an attempt that went through, or an error; from the floor up, all that was ever appended from the number up, in order. |
| TxLogIO.DBTransactionLogIO.DeleteTransactions | gcloud/datastore/dbtransactionlogio.go:297-370 | Keeps the invariant whether it completes or stops part way; on success no batch below the number is left. |
| LogGC.SteppedInv | gc/inodedbtxloggc/inodedbtxloggc.go:27-61 | Commits, rollbacks, locks, snapshots, both collectors and log syncs, in any order, keep every snapshot replayable and everything from the third newest snapshot up, as long as no rollback goes back to a snapshot that is not level with all newer ones. |
| LogGC.SteppedExact | inodedb/blobstoredbstatesnapshotio/blobstoredbstatesnapshotio.go:128-140 | And a step keeps it if and only if it is no rollback from a snapshot that is not level. |
| LogGC.UndoExact | inodedb/blobstoredbstatesnapshotio/blobstoredbstatesnapshotio.go:128-140 | A rollback from a snapshot that stands in for unreadable newer ones keeps it if and only if, brought forward, it has given out no fewer numbers than any of those; from the newest always. |
| LogGC.UndoneTooFar | inodedb/inodedb.go:109-122 | After any other rollback a file can be created with which a newer snapshot cannot be brought forward any more. |
| LogGC.FallbackRun | inodedb/blobstoredbstatesnapshotio/blobstoredbstatesnapshotio.go:128-140 | A whole history, from an empty database on, that ends so. |
| LogGC.SaveInv | inodedb/blobstoredbstatesnapshotio/blobstoredbstatesnapshotio.go:44-88 | Saving a snapshot keeps it. |
| LogGC.DropOldInv | gcloud/datastore/inodedbsslocator.go:128-194 | Deleting snapshots from the fourth newest on, completely or not, keeps it. |
| LogGC.CommitInv | inodedb/inodedb.go:294-323 | A committed transaction can be replayed on what every kept snapshot comes forward to. |
| LogGC.ThreeNewest | inodedb/blobstoredbstatesnapshotio/blobstoredbstatesnapshotio.go:128-149 | At any moment of any history whose rollbacks were all level, each of the three newest snapshots, brought forward by the log's answer then, has the nodes and the version of the present. |
| LogGC.RestoreSnapshot | inodedb/blobstoredbstatesnapshotio/blobstoredbstatesnapshotio.go:128-140 | The snapshot chosen for a rollback: the newest readable of the three newest, or none exactly when none of them is readable. |
| RingCache.RecentMore | inodedb/cacheddbtransactionlogio.go:37-56 | One more transaction keeps the ring the end of the log, and the oldest number that of its first, before and after the ring is full. |
| RingCache.RecentAnswer | inodedb/cacheddbtransactionlogio.go:58-82 | From its oldest number up the ring has exactly what the log has. |
| RingCache.CachedDBTransactionLogIO.AppendTransaction | inodedb/cacheddbtransactionlogio.go:37-56 | Log and ring stay in step, or neither changes. |
| RingCache.CachedDBTransactionLogIO.Put | inodedb/cacheddbtransactionlogio.go:47-54 | The ring in order loses its first and gains a last, also across the end of the array. |
| RingCache.CachedDBTransactionLogIO.QueryCachedTransactions | inodedb/cacheddbtransactionlogio.go:67-82 | The ring in order from the number up. |
| RingCache.CachedDBTransactionLogIO.QueryTransactions | inodedb/cacheddbtransactionlogio.go:58-65 | Every query is answered as by the log behind the cache. |
| CacheEntry.StepInv | blobstore/cachedblobstore/cachedblobentry.go:145-236 | Every step of opening, fetching, writing, writing back and closing keeps the invariant below, or panics. |
| CacheEntry.InitializeInv | blobstore/cachedblobstore/cachedblobentry.go:399-479 | Opening by comparing versions keeps it. |
| CacheEntry.FetchInv | blobstore/cachedblobstore/cachedblobentry.go:294-388 | While fetching, the valid length is below the blob's, the valid bytes are the backend's, and nobody writes to either blob. |
| CacheEntry.WriteBeginInv | blobstore/cachedblobstore/cachedblobentry.go:578-598 | The beginning of a write keeps it. |
| CacheEntry.WritebackEndInv | blobstore/cachedblobstore/cachedblobentry.go:704-748 | The end of a writeback keeps it, whether or not the backend writer could be closed. |
| CacheEntry.CloseBeginInv | blobstore/cachedblobstore/cachedblobentry.go:845-930 | The beginning of a close, in every mode, keeps it. |
| CacheEntry.CleanIsRecorded | blobstore/cachedblobstore/cachedblobentry.go:648-749 | In every run, a clean entry with no write in flight is of no newer version than is recorded for the backend. |
| CacheEntry.RacedEndsDirty | blobstore/cachedblobstore/cachedblobentry.go:545-607 | In every run, a write that begins during a writeback makes that writeback end in a dirty entry. |
| CacheEntry.WritebackCopies | blobstore/cachedblobstore/cachedblobentry.go:698-732 | In every run, a writeback that began with no write in flight and ends clean, or closing, has recorded the version of the cached blob; and it has made the backend blob the cached one if and only if the writer could be closed, writes through, or the two were the same before. |
| CacheEntry.CloseLost | blobstore/cachedblobstore/cachedblobentry.go:704-748 | From every dirty, idle entry with something to write back, four steps lead to a clean one with the new version recorded and the backend blob as it was. |
| CacheEntry.LostRun | blobstore/cachedblobstore/cachedblobentry.go:704-748 | A whole run that ends clean, with a version recorded that the backend blob does not have. |
| CacheEntry.EndPanics | blobstore/cachedblobstore/cachedblobentry.go:565-576 | A write ends well if and only if the entry is marked as written to at that moment. |
| CacheEntry.BeginPanics | blobstore/cachedblobstore/cachedblobentry.go:545-598 | For every state: a write that begins panics if and only if the entry is marked as written to outside of a writeback, its wait is refused or broken, or the entry is being fetched and yet valid. |
| CacheEntry.ClosePanics | blobstore/cachedblobstore/cachedblobentry.go:845-895 | For every state and mode: closing panics if and only if the mode comes down to abandoning and the blob is still being fetched, or begins to be by the opening that comes first. |
| CacheEntry.FetchAlone | blobstore/cachedblobstore/cachedblobentry.go:583-587 | While the blob is being fetched no write begins, lands or ends, and no writeback takes a step. |
| CacheEntry.OutlivedPanics | blobstore/cachedblobstore/cachedblobentry.go:565-576 | In every run: once a writeback that a write has raced is over, and as long as no other write begins, whichever write ends panics. |
| CacheEntry.OutlivedEnds | blobstore/cachedblobstore/cachedblobentry.go:545-576 | In every run, a write that ends after a raced writeback ends well if and only if the entry is marked at that moment, and then by a write that began since. |
| CacheEntry.BorrowedMark | blobstore/cachedblobstore/cachedblobentry.go:545-576 | A write that ends well so leaves the one whose mark it was to panic. |
| CacheEntry.OutlivedRun | blobstore/cachedblobstore/cachedblobentry.go:545-576 | A whole run of one writer and one writeback that panics. |
| CacheEntry.OpenedState | blobstore/cachedblobstore/cachedblobentry.go:429-473 | Opening leaves a newer cache dirty, an equal one clean and an older one to be fetched, which panics in an entry closed before; an older one is taken for clean when the backend blob is empty. |
| CacheEntry.FetchDone | blobstore/cachedblobstore/cachedblobentry.go:342-352 | A block fetched makes the entry clean if and only if the cached blob is then the backend blob. |
| CacheEntry.FetchFailed | blobstore/cachedblobstore/cachedblobentry.go:374-388 | A fetch that fails gives the entry up with nothing valid. |
| CacheEntry.WaitOver | blobstore/cachedblobstore/cachedblobentry.go:263-286 | A wait passes if and only if the entry is open and valid that far; when it waits on and when it is refused. |
| CacheEntry.WritebackStarts | blobstore/cachedblobstore/cachedblobentry.go:648-696 | A writeback copies if and only if the cached version is newer than the recorded one; an equal one makes the entry clean, or panics during a close; an older one is refused. |
| CacheEntry.WritebackEndPanics | blobstore/cachedblobstore/cachedblobentry.go:716-748 | The end of a writeback panics if and only if the version changed without a mark. |
| CacheEntry.WritebackFailPanics | blobstore/cachedblobstore/cachedblobentry.go:698-714 | A writeback that fails gives the entry up, and panics if and only if it was raced or is part of a close. |
| CacheEntry.RecordedGrows | blobstore/cachedblobstore/cachedblobentry.go:716-718 | In every run the version recorded for the backend never goes back. |
| CacheEntry.ClosedIsRecorded | blobstore/cachedblobstore/cachedblobentry.go:845-955 | In every run, a dirty entry closed with writing back is closed only once the version of its content is recorded, and with the content it had. |
| CacheEntry.ClosedUnwritten | blobstore/cachedblobstore/cachedblobentry.go:857-864 | In the other two modes, the one to write back if needed included, nothing of a dirty entry is written. |
| CacheEntry.ClosedState | blobstore/cachedblobstore/cachedblobentry.go:932-955 | The end of a close keeps the cached blob, except of an entry given up, and does not panic. |
| CacheEntry.LogicalStep | blobstore/cachedblobstore/cachedblobentry.go:263-370 | Nothing but an edit landing in the cached blob changes what readers are to see, or takes back a passed wait. |
| CacheEntry.LandsLogical | blobstore/cachedblobstore/cachedblobentry.go:578-607 | An edit that lands changes what readers are to see, byte by byte: a write puts its bytes at its offset and leaves the others, a truncation keeps what it can and fills up with zeros. |
| CacheEntry.SizeIsLength | blobstore/cachedblobstore/cachedblobentry.go:578-646 | In every run in which edits land one at a time, and which never takes an old blob for an empty one, the recorded length of an open entry with no edit on its way is that of the blob its readers are to see. |
| CacheEntry.ReadSees | blobstore/cachedblobstore/cachedblobentry.go:529-540 | A read that has passed its wait sees the bytes of the logical blob, also while the rest is being fetched. |
| CacheEntry.ReadLater | blobstore/cachedblobstore/cachedblobentry.go:529-540 | In every run this still holds when the blob is looked at any number of steps after the wait, as long as the entry stays open and no edit lands. |
| CachedBlobEntry.CachedBlobEntry.UpdateState | blobstore/cachedblobstore/cachedblobentry.go:145-236 | The new state if the transition is allowed, a panic if not. |
| CachedBlobEntry.CachedBlobEntry.InitializeWithLock | blobstore/cachedblobstore/cachedblobentry.go:399-479 | A step of the protocol. |
| CachedBlobEntry.CachedBlobEntry.WaitUntilInvalidateAtLeast | blobstore/cachedblobstore/cachedblobentry.go:263-286 | Whether the wait is over, and how, in every state. |
| CachedBlobEntry.CachedBlobEntry.PWriteBegin | blobstore/cachedblobstore/cachedblobentry.go:578-599 | A step of the protocol, or nothing. |
| CachedBlobEntry.CachedBlobEntry.PWriteEnd | blobstore/cachedblobstore/cachedblobentry.go:603-605 | A step of the protocol. |
| CachedBlobEntry.CachedBlobEntry.WriteBackBegin | blobstore/cachedblobstore/cachedblobentry.go:648-696 | A step of the protocol; the copy goes ahead exactly when the cached version is newer than the recorded one. |
| CachedBlobEntry.CachedBlobEntry.WriteBackEnd | blobstore/cachedblobstore/cachedblobentry.go:704-748 | A step of the protocol, with the backend writer closed or not: an error of closing it changes nothing else. |
| CachedBlobEntry.CachedBlobEntry.CloseClaim | blobstore/cachedblobstore/cachedblobentry.go:845-930 | The locked beginning of a close, in every mode and state, is a step of the protocol. |
| CachedBlobEntry.CachedBlobEntry.CloseFinish | blobstore/cachedblobstore/cachedblobentry.go:937-955 | The end of a close that owes no writeback is a step of the protocol. |
| CachedBlobEntry.CachedBlobEntry.InvalidateMark | blobstore/cachedblobstore/cachedblobentry.go:342-352 | A step of the protocol; the valid length never passes the blob's. |
| CachedBlobEntry.CachedBlobEntry.InvalidateFailed | blobstore/cachedblobstore/cachedblobentry.go:374-388 | A step of the protocol. |
| Scheduler.StepInv | scheduler/scheduler.go:309-520 | Every step of loop, runners and aborts keeps: each job counted as its state says, each unfinished job on its way or run by exactly one runner. |
| Scheduler.AbortInv | scheduler/scheduler.go:287-303 | Aborting a job, wherever it is, keeps it. |
| Scheduler.TickNextInv | scheduler/scheduler.go:444-466 | Going through the waiting jobs drops only those no longer scheduled. |
| Scheduler.StartInvariant | scheduler/scheduler.go:476-496 | A runner starts a job only if it is still scheduled, and then alone. |
| Scheduler.FinishInv | scheduler/scheduler.go:504-517 | Finishing issues the callback once. |
| Scheduler.RunsOnce | scheduler/scheduler.go:309-520 | At every moment of every run a job has run at most once, and its callback was issued exactly once if it is over and not before. |
| Scheduler.OverForGood | scheduler/scheduler.go:287-303 | A job that is over never changes again. |
| Scheduler.AbortedNeverRuns | scheduler/scheduler.go:478-482 | A job that a step aborts before it was started ends as aborted and is never run. |
| Scheduler.EndedAborted | scheduler/scheduler.go:287-303 | In every run, a job that was started and is over ended as aborted if and only if a step aborted it, by its number or as one of all, while it was running; otherwise it has finished. |
| Scheduler.AllAborted | scheduler/scheduler.go:421-431 | In every run, an abort of all that has ended has aborted every job that was not over when it began. |
| Scheduler.StoppedAllOver | scheduler/scheduler.go:266-278 | When the loop and all runners have ended, every job ever accepted is finished or aborted and was called back. |
| Scheduler.KnownUntilOver | scheduler/scheduler.go:329-350 | Collecting old jobs never forgets one that is not over. |
| Scheduler.JobCell.Abort | scheduler/scheduler.go:287-303 | Stops a job not yet started, asks one that has started to stop, leaves one that is over alone. |
| Scheduler.JobCell.TryStart | scheduler/scheduler.go:478-496 | Starts a job exactly if it is scheduled. |
| Scheduler.JobCell.SetDone | scheduler/scheduler.go:505-517 | Finished, or aborted if it was asked to stop; `Scheduler.EndedAborted` says when that is. |

## Left out

- Buffer pools and slices shared between patches, frames and readers: contents are values, and each `btncrypt.Reader` is freshly made.
- AES-GCM, gob, JSON, gzip and PBKDF2 themselves: parameters with inverse and length laws; a batch of the log is stored as it is.
- The header fields for the original file name and offset, which nothing reads back.
- Errors of the blob behind a chunk, and blobs that are corrupt: only the chunked file above them fails here.
- `ChunkedFileIO` writes that insert chunks before existing ones, reads across several gaps, and truncation of chunked and open files; `ChunkIO.Truncate` does not exist in the source.
- The inode database refusing a size update of an open file: `OpenFile.size` is a field here.
- Parents and modification times across a replay, and lock exclusivity across a rollback: the source does not restore them.
- The snapshot store that yields its snapshot only once (inodedb/simpledbstatesnapshotio.go): `DBStateSnapshotIO` keeps the last one saved, as the one on the blob store does.
- The versions `SaveSnapshot` reads after the state may have moved on: saving is one step.
- Blobs created while the blob collector runs, and recovery from a writeback torn by a crash.
- Real time, timers, fairness and liveness; an `OpenHandle` that spins on an entry being closed with dirty data is not shown.
- INodeDB.DBStateSnapshotIO.RestoreSnapshot: has the newest snapshot only, which can be read; `LogGC` has the fall-back to older ones.
- INodeDB.DB.RestoreVersion: asks for a replay in which no operation fails, as do `INodeDB.DB.ReplayLog` and `INodeDB.NewDB`; on any other the source does not return, which is what `INodeDB.RestoreEnds` shows.
- TxLogIO.DBTransactionLogIO.QueryTransactions: what is answered below the largest deletion asked for depends on what is gone already.
- FileSystem.SetAttr: says nothing of the modification time, nor `FileSystem.CreateNode` and `FileSystem.Rename` of parents and times, which a later rollback does not bring back; `INodeLaws` has them for each operation.
- FUSE, WebDAV, servers, command line, Google Cloud clients, configuration, logging, metrics, access control, path parsing: plumbing.
