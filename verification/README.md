# skeg-hull: on-disk format and atomic replacement, verified

A Dafny model of the `skeg-hull` crate: the binary container its files share, the two formats it reads and
writes (SagaV1, KvCacheV1), the CRC32C that guards them, the scrubber that checks them in the background,
and `atomic_write`, which replaces them while others write and read. `dafny verify dfyconfig.toml` checks
the whole project.

## How it is put together

| Files | Content |
|---|---|
| `Prelude`, `Bytes`, `Arithmetic`, `Format`, `Utf8` | results and errors, little-endian integers, products and quotients, format ids, UTF-8 (section 4 of RFC 3629) |
| `Stream` | `Read + Write + Seek` with short, and on request failing, calls |
| `Crc32c` | CRC32C bit by bit (section 12.1 of RFC 3720), streaming, linearity, injectivity, bursts |
| `Header`, `Container`, `Image` | header and table, what both readers do, what both writers do |
| `SagaMeta`, `Centroids`, `Tags`, `Saga` | the saga sections and the whole file |
| `Identity`, `Shape`, `Blob`, `BlobSize`, `KvCache` | the KV-cache sections, the size arithmetic and the whole file |
| `Scrub` | the chunked checker, and where it agrees with writers and readers |
| `TempNames`, `Protocol` | temporary names; `atomic_write`, readers, other programs and crashes as a state machine |
| `Reads` | what reads of one file give, wherever they are made and however short |
| `ProtocolInvariant`, `ProtocolSteps` | the inductive invariant and its preservation by every kind of step |
| `ProtocolHistory`, `ProtocolNames`, `ProtocolTheorems`, `ProtocolCounterexamples` | what follows for every run |
| `CrashRecovery` | runs, crashes and restarts, any number of times |
| `AtomicWriter`, `EndToEnd` | the call itself run among others; the protocol and the formats together |

The protocol is a transition system over one directory. Its state has a directory (name to inode), file
contents as programs see them, the set of files that are on disk, the directories a crash could still fall
back to, the process counters, every call's progress, a log of renames and every reader's progress. Any
number of calls by any number of processes take steps in any order; each fallible step may fail; readers
seek and read a few bytes at a time; other programs create and remove files of their own and tidy up temporary
files left over from earlier crashes, whose names a call may happen to draw. The main theorems are
about all states that any run reaches. Exclusive creation, the atomicity of `rename` and the meaning of
`fsync` are taken from POSIX.1-2017 as single steps of that system.

Integers have the widths of the Rust types on a 64-bit machine; bytes are 8-bit vectors, checksums and
`f32` values 32-bit ones. Where the Rust arithmetic can overflow or divide by zero, the model returns
`Panic`, as a build with overflow checks does. Methods are the source's loops and in-place updates; each
is tied to a function, and the lemmas are about those functions.

## Where code and documentation part

- `expected_blob_bytes` documents `heads * tokens * (dim / group) * bytes` for the scales but computes
  `heads * tokens * dim / group * bytes` (`crates/skeg-hull/src/kv_cache/shape.rs:110-128`). The model
  follows the code; `BlobSizes.ScalesMeetDocumentation` says exactly when the two agree.
- List and section counts are cast with `as u32`. A saga with 2^32 or more centroids or tags is written
  without an error and then refused by the reader (`Sagas.SagaRoundTrip`, `Sagas.TooManyCentroids`).
- `read_kv_cache` promises a cache or an error (`crates/skeg-hull/src/kv_cache/read.rs:16-18`), but a quantised
  shape with a group size of zero, which `write_kv_cache` writes without an error, makes it divide by zero
  (`KvCaches.ZeroGroupsPanic`). `KvCaches.PanicsExactly` and `Sagas.PanicsExactly` list every file that makes a
  reader panic.
- A shape with a zero factor can still overflow before the zero is reached (`BlobSizes.PlainPanicsExactly`).
- A declared length near 2^64 makes the blob decoder's bounds check itself overflow
  (`crates/skeg-hull/src/kv_cache/blob.rs:44`, `Blobs.PanicsExactly`); likewise count times entry size for
  centroids (`Sagas.HugeCountsPanic`). The model returns `Panic` there.
- Cleanup in `atomic_write` covers errors but not a closure that panics: its temporary file stays.
  `AtomicWriter.AtomicWrite` states this, and that the target is still untouched.
- After a crash the counter starts again at 0, the pid may repeat, and a clock before the epoch reads 0, so a call
  can draw the name of a leftover file. It then fails, and its cleanup removes that leftover
  (`ProtocolTheorems.OwnNameIsAsExpected`, `ProtocolTheorems.CleanupIsOwn`); no target and no other call is harmed.
- An empty section at an offset that a file cannot seek to is a read error for the scrubber
  (`Scrub.VerifySection`), though the readers would only look at its range.

## Model

| member | source | states |
|---|---|---|
| `TempNames.TempNameInjective` | crates/skeg-hull/src/atomic.rs:51-62 | Two temporary names are equal if and only if file name, pid, nanos and counter all are: decimals are injective and free of dots, so the name splits at its last dots. |
| `TempNames.DecimalDenotes` | crates/skeg-hull/src/atomic.rs:61 | The numbers in a name are written in decimal digits that denote them, without leading zeros. |
| `TempNames.TempNameSpelled` | crates/skeg-hull/src/atomic.rs:53-61 | The file name, then .tmp, and after a dot each the pid, the clock reading and the counter value. |
| `ProtocolInvariant.InitInv` | crates/skeg-hull/src/atomic.rs:33-37 | The invariant holds of any directory before the first call; temp-shaped names in it are set apart as stale. |
| `ProtocolSteps.FreshName` | crates/skeg-hull/src/atomic.rs:51-68 | A name that no call has drawn before is in the directory exactly if a leftover from before has it. |
| `ProtocolNames.UnwrappedIsReached` | crates/skeg-hull/src/atomic.rs:16-19 | While no counter has wrapped, no two calls of any run have the same temporary name, whatever the clock says; which is all the other theorems assume of a run. |
| `ProtocolNames.UnwrappedNameIsNew` | crates/skeg-hull/src/atomic.rs:46-50 | A process with counter values left will draw a name no call has had, whatever the clock says then. |
| `ProtocolSteps.RenamedIsSettled` | crates/skeg-hull/src/atomic.rs:64-74 | The file that a rename puts in place is complete, on disk, and no call can write to it any more. |
| `ProtocolSteps.StartInv` | crates/skeg-hull/src/atomic.rs:46-62 | Starting a call (clock reading, counter bump, name) keeps the invariant, also when the name is that of a leftover. |
| `ProtocolSteps.CreateNewInv` | crates/skeg-hull/src/atomic.rs:65-68 | Exclusive creation keeps the invariant. |
| `ProtocolSteps.WriteTempInv` | crates/skeg-hull/src/atomic.rs:69 | Any write by the closure keeps it: it touches no published file and no other call's. |
| `ProtocolSteps.SyncAllInv` | crates/skeg-hull/src/atomic.rs:70-71 | Flush and fsync of the temporary file keep it. |
| `ProtocolSteps.RenameInv` | crates/skeg-hull/src/atomic.rs:74 | The rename keeps it: the target's new value is the call's output, all other targets are as they were. |
| `ProtocolSteps.RemoveFileInv` | crates/skeg-hull/src/atomic.rs:85-87 | Cleanup keeps it. |
| `ProtocolSteps.StepInv` | crates/skeg-hull/src/atomic.rs:33-89 | Every step of any call, reader or other program keeps the invariant. |
| `ProtocolSteps.ReachableInv` | crates/skeg-hull/src/atomic.rs:33-89 | So it holds in every state that any run of any number of calls leads to, as long as no two of them have drawn the same name. |
| `ProtocolHistory.LogIsTheRenames` | crates/skeg-hull/src/atomic.rs:74 | The log of a state lists the renames of the run that led to it: each, in order, with its time, and nothing else. |
| `ProtocolHistory.RecordsAreHistory` | crates/skeg-hull/src/atomic.rs:64-88 | The start and return times in a call's record are the positions of its first step and of its Ok return in the run. |
| `ProtocolTheorems.TargetIsRegister` | crates/skeg-hull/src/atomic.rs:1-7 | At every moment of every run the target holds the value of a register written by the renames: the last one's bytes, or the first content. |
| `ProtocolTheorems.RegisterIsOneOutput` | crates/skeg-hull/src/atomic.rs:1-7 | That value is the target's content at the start, or the complete output of one call for that target whose rename took effect. |
| `ProtocolTheorems.OkIffRenamed` | crates/skeg-hull/src/atomic.rs:64-88 | A finished call returned Ok if and only if a rename of its own took effect, and then exactly one did. |
| `ProtocolTheorems.RenameWithinCall` | crates/skeg-hull/src/atomic.rs:64-88 | An Ok call's rename lies strictly between its start and its return and publishes its whole output. |
| `ProtocolTheorems.RealTimeOrder` | crates/skeg-hull/src/atomic.rs:64-88 | If one Ok call returned before another started, their renames are in that order; with the three rows above, targets are linearizable registers. |
| `ProtocolTheorems.ReadsAreSnapshots` | crates/skeg-hull/src/atomic.rs:3-7 | Everything a reader gets through one open file, seeking and reading as it likes while renames happen, comes from the one value the target had when it was opened. |
| `ProtocolTheorems.WholeReadGivesValue` | crates/skeg-hull/src/atomic.rs:3-7 | Reading from start to end gives exactly that value. |
| `ProtocolTheorems.ReadsSeeFinishedWrites` | crates/skeg-hull/src/atomic.rs:3-7 | A reader that opened the target after a call returned Ok sees that call's output or a later one's. |
| `ProtocolTheorems.CrashLeavesWholeValue` | crates/skeg-hull/src/atomic.rs:64-82 | After a crash at any moment, with unsynced file contents lost or garbled and each directory entry at some state since the last directory sync, the target is one complete old or new value. |
| `ProtocolTheorems.CrashOutcomes` | crates/skeg-hull/src/atomic.rs:76-81 | The values a crash can leave are exactly the register's values at the moments since the last directory sync. |
| `ProtocolTheorems.UnsyncedMayBeAnything` | crates/skeg-hull/src/atomic.rs:69-71 | Until its fsync a temporary file is at a crash's mercy: anything may be left in place of what was written, which is why the fsync comes before the rename. |
| `ProtocolTheorems.SyncedCallSurvivesCrash` | crates/skeg-hull/src/atomic.rs:76-81 | If the directory sync succeeded, a crash leaves that call's value or that of a later rename. |
| `ProtocolTheorems.TempNamesAreOwn` | crates/skeg-hull/src/atomic.rs:26-31 | While no counter has wrapped, no two calls of any run share a temporary name, and none is a target. |
| `ProtocolTheorems.LeftoversOnlyGo` | crates/skeg-hull/src/atomic.rs:85-87 | Leftovers are names that were there at the start; once gone, they stay gone. |
| `ProtocolTheorems.OwnNameIsAsExpected` | crates/skeg-hull/src/atomic.rs:65-87 | Exclusive creation meets an existing name exactly if a leftover has it; the rename never misses its source; cleanup finds something exactly if the call created its file or a leftover was in its way. |
| `ProtocolTheorems.CleanupIsOwn` | crates/skeg-hull/src/atomic.rs:85-87 | Cleanup removes the file its own call created exactly if no leftover has the name, and otherwise that leftover, its call having created nothing; every target and every other call's entry stay. |
| `ProtocolTheorems.NoTempsLeft` | crates/skeg-hull/src/atomic.rs:85-87 | Once all calls have finished, the temp-shaped names in the directory are exactly the leftovers still there and those whose calls failed to remove them. |
| `CrashRecovery.CanRestart` | crates/skeg-hull/src/atomic.rs:64-88 | Whatever a crash leaves, temporary files included, is a directory the next run can start from; its calls may draw the names of those files. |
| `CrashRecovery.AlwaysWhole` | crates/skeg-hull/src/atomic.rs:1-7 | Through any number of crashes and restarts the target holds its first content or the complete output of one call. |
| `CrashRecovery.SyncedIsForever` | crates/skeg-hull/src/atomic.rs:76-81 | A call whose directory sync succeeded is never undone by any number of later crashes: the target's value is its own or a later rename's. |
| `ProtocolCounterexamples.OldSchemeRemovesAnothersFile` | crates/skeg-hull/src/atomic.rs:26-31 | With the former name per process: a run in which a second call cannot create its file, cleans up, and thereby removes the first call's file in flight. |
| `ProtocolCounterexamples.LeftoverInTheWay` | crates/skeg-hull/src/atomic.rs:46-68 | A run in which the first call after a restart draws the name of a leftover, cannot create its file, and removes the leftover. |
| `AtomicWriter.RunKeeps` | crates/skeg-hull/src/atomic.rs:64-82 | However many steps others take, a call's record and its file's content stay as the call left them. |
| `AtomicWriter.RunClosure` | crates/skeg-hull/src/atomic.rs:69 | The closure's writes, one after another with others in between: on success the file holds their concatenation. |
| `AtomicWriter.Create` | crates/skeg-hull/src/atomic.rs:65-68 | Exclusive creation among others: on success the call has an empty file of its own, on failure none. |
| `AtomicWriter.FlushFile` | crates/skeg-hull/src/atomic.rs:70 | Once the closure has succeeded: flush, with an error exactly if that fails; the content is what the closure wrote. |
| `AtomicWriter.SyncFile` | crates/skeg-hull/src/atomic.rs:71-72 | Fsync and drop, with an error exactly if the fsync fails; the content is still that. |
| `AtomicWriter.CleanUp` | crates/skeg-hull/src/atomic.rs:85-87 | If removal works the name is gone; if not, the call leaks its file exactly if it had one. |
| `AtomicWriter.Commit` | crates/skeg-hull/src/atomic.rs:74-82 | Rename, then directory sync: an error exactly when the rename fails; a failed directory sync changes nothing else. |
| `AtomicWriter.Replace` | crates/skeg-hull/src/atomic.rs:64-83 | The steps in order: a system call that fails up to the rename gives an I/O error, a closure that gives up gives its own error, and nothing else gives one. |
| `AtomicWriter.AtomicWrite` | crates/skeg-hull/src/atomic.rs:33-89 | Among arbitrary other calls, for every clock reading and every combination of failing system calls: an I/O error if creation, a write, the flush, the fsync or the rename fails, the closure's own error if it gives up after its writes, Ok otherwise, whatever becomes of the directory sync; Ok means that the target took on exactly the bytes written at a moment within this call, otherwise nothing of this call's was ever published; and exactly when the temporary name remains: always after a panic, after an error if removal failed and there was a file or a leftover to remove, never after Ok. |
| `Crc32c.ThirtyTwoZeros` | crates/skeg-hull/src/checksum.rs:9-11 | The bitwise definition gives the checksum of 32 zero bytes published in appendix B.4 of RFC 3720. |
| `Crc32c.AppendConcat` | crates/skeg-hull/src/checksum.rs:27-29 | Continuing a checksum over more bytes equals the checksum of the whole. |
| `Crc32c.Crc32cBuilder.constructor` | crates/skeg-hull/src/checksum.rs:22-24 | A fresh builder has been fed nothing. |
| `Crc32c.Crc32cBuilder.Update` | crates/skeg-hull/src/checksum.rs:27-29 | The bytes are added to those fed so far. |
| `Crc32c.Crc32cBuilder.Finalize` | crates/skeg-hull/src/checksum.rs:32-34 | The one-shot checksum of everything fed. |
| `Crc32c.StepsIsLinear` | crates/skeg-hull/src/checksum.rs:9-11 | Shifting bits out of the register is linear over exclusive or. |
| `Crc32c.RunIsInjective` | crates/skeg-hull/src/checksum.rs:9-11 | Different registers stay different over the same bytes. |
| `Crc32c.RunFour` | crates/skeg-hull/src/checksum.rs:9-11 | Four bytes enter the register as their little-endian word. |
| `Crc32c.BurstChangesChecksum` | crates/skeg-hull/src/checksum.rs:9-11 | Buffers that differ, only within four consecutive bytes, have different checksums. |
| `Crc32c.TrailerResidue` | crates/skeg-hull/src/checksum.rs:9-11 | Four bytes are the checksum of what precedes them if and only if the register ends in a fixed residue. |
| `Bytes.LeDigits` | crates/skeg-hull/src/header.rs:51-57 | Byte i of a little-endian number is its digit i to the base 256. |
| `Bytes.LeI64Meaning` | crates/skeg-hull/src/header.rs:173 | A negative number is written as itself plus 2^64. |
| `Bytes.CastDropsMultiples` | crates/skeg-hull/src/header.rs:175 | The cast of a count to 32 bits drops multiples of 2^32 and nothing else. |
| `Streams.OverwriteBytes` | crates/skeg-hull/src/header.rs:165-185 | What writing at a position leaves, byte by byte. |
| `Headers.EntryLayout` | crates/skeg-hull/src/header.rs:51-58 | Where an entry's fields lie in its 28 bytes. |
| `Headers.HeaderLayout` | crates/skeg-hull/src/header.rs:165-185 | Where a written header's fields lie: SKEGHULL first, the format by its number, the table at 64, zeros in the reserved bytes. |
| `Headers.ParsesIffSpelt` | crates/skeg-hull/src/header.rs:96-159 | A file parses to a header if and only if it is long enough, agrees with that header's encoding on the first 40 bytes, which hold the count, and on the first 24 bytes of every entry. |
| `Headers.ParseRefuses` | crates/skeg-hull/src/header.rs:96-141 | Every other file is refused: too short, not starting with SKEGHULL, a format number other than 1 to 4, a table not at 64, a table cut short; with the error of the first of these. |
| `Headers.EntryRoundTrip` | crates/skeg-hull/src/header.rs:33-58 | A table entry reads back as it was written. |
| `Headers.ReadEntryFrom` | crates/skeg-hull/src/header.rs:33-49 | The one entry whose encoding agrees with the first 24 bytes, whatever follows them; Truncated exactly below 28 bytes. |
| `Headers.WriteEntryTo` | crates/skeg-hull/src/header.rs:51-58 | Exactly the 28 bytes at the given position change, into the entry's encoding. |
| `Headers.HeaderRoundTrip` | crates/skeg-hull/src/header.rs:96-188 | Written bytes followed by anything read back as the same header if and only if it has fewer than 2^32 sections; with more, the table is cut short. |
| `Headers.HeaderIgnoresReserved` | crates/skeg-hull/src/header.rs:45-47 | Header bytes 40..64 and entry bytes 24..28 never matter. |
| `Headers.Read` | crates/skeg-hull/src/header.rs:96-159 | Over arbitrary streams: the header of the bytes, or an I/O error, with the position at the first payload byte on success. |
| `Headers.ReadTable` | crates/skeg-hull/src/header.rs:143-149 | The table loop yields the entries at their computed positions. |
| `Headers.Write` | crates/skeg-hull/src/header.rs:165-188 | Header and table at the start of the stream, the rest of it unchanged. |
| `Container.SealedIffResidue` | crates/skeg-hull/src/saga/read.rs:28-34 | A file's trailer is right if and only if the register over the whole file ends in the residue. |
| `Container.BurstUnseals` | crates/skeg-hull/src/kv_cache/read.rs:28-34 | No change within four consecutive bytes keeps the trailer right, not even one across body and trailer. |
| `Container.OpenRefuses` | crates/skeg-hull/src/saga/read.rs:24-58 | Why a file is not opened, in the order it is looked for: length, trailer, header, format, version; with each error spelt out. |
| `Container.SectionRefused` | crates/skeg-hull/src/saga/read.rs:117-126 | Why a section is not read: its end leaves 64 bits, or lies in the trailer or beyond, or its checksum is wrong; with each error. |
| `Container.OpenImage` | crates/skeg-hull/src/kv_cache/read.rs:24-58 | Trailer, header, format and version checks, in order, with their errors. |
| `Container.LocateThree` | crates/skeg-hull/src/kv_cache/read.rs:60-71 | The scan ends with the last entry of each required id. |
| `Container.SameViewSameSection` | crates/skeg-hull/src/kv_cache/read.rs:60-105 | For any two tables: what a reader fetches for an id depends only on the last entry with that id, and of that only on its checksum and the bytes it covers, or on how it is out of range. |
| `Container.SameContentsSameView` | crates/skeg-hull/src/kv_cache/read.rs:60-105 | With unique ids in range, the set of known contents decides all of that. |
| `Images.ImageTiles` | crates/skeg-hull/src/saga/write.rs:29-86 | The section ranges of an image are consecutive from the first payload byte to the trailer, each holds its payload and its checksum, and 64 + body length + 4 is the file length. |
| `Images.ImageOpens` | crates/skeg-hull/src/kv_cache/write.rs:24-82 | An image passes the trailer check and its header is the one written. |
| `Images.ImageSays` | crates/skeg-hull/src/saga/write.rs:29-68 | The header of a written image field by field: version 1, no flags, its timestamp, the body length, and sections 1, 2 and 3 from byte 148 on with their lengths and checksums. |
| `Images.ThreeSections` | crates/skeg-hull/src/kv_cache/write.rs:24-82 | Looking up and checking each section of an image gives the payload back. |
| `Images.CarriedPartsAreFetched` | crates/skeg-hull/src/kv_cache/read.rs:60-105 | Any file whose last entries of the three ids cover the payloads yields them, whatever else it holds. |
| `Images.WriteThree` | crates/skeg-hull/src/saga/write.rs:29-92 | Offsets, header, payloads and trailer put together and written give exactly the image. |
| `Tags.EncodeSection` | crates/skeg-hull/src/saga/tags.rs:20-37 | The encoding, or the error for a tag over 65535 bytes. |
| `Tags.DecodeSection` | crates/skeg-hull/src/saga/tags.rs:40-78 | The cursor loop decodes exactly what the recursive definition does, with the same error at the same index. |
| `Tags.Layout` | crates/skeg-hull/src/saga/tags.rs:20-36 | Where tag i lies: its count, its length in 16 bits, its bytes. |
| `Tags.Refuses` | crates/skeg-hull/src/saga/tags.rs:47-76 | After any number of well-formed tags: which error, and at which index, what follows them is refused with. |
| `Tags.TooShort` | crates/skeg-hull/src/saga/tags.rs:41-43 | The section is too short for its count exactly below four bytes. |
| `Utf8.Utf8IffScalars` | crates/skeg-hull/src/saga/tags.rs:62-64 | The byte strings accepted as text are exactly the UTF-8 encodings of sequences of scalar values, surrogates and overlong forms excluded. |
| `Tags.DecodeIffEncoded` | crates/skeg-hull/src/saga/tags.rs:20-78 | Bytes decode to a list if and only if they are that list's encoding (and the list is encodable). |
| `Tags.SectionRoundTrip` | crates/skeg-hull/src/saga/tags.rs:20-78 | An encodable list reads back as itself if its length fits 32 bits; otherwise trailing bytes are reported. |
| `Centroids.EncodeSection` | crates/skeg-hull/src/saga/centroid.rs:21-37 | The nested loops append every entry, or report a vector of the wrong length. |
| `Centroids.DecodeSection` | crates/skeg-hull/src/saga/centroid.rs:40-66 | The nested loops take the buffer apart entry by entry, in range throughout. |
| `Centroids.Layout` | crates/skeg-hull/src/saga/centroid.rs:24-35 | Where entry i lies: its cluster size, then its vector. |
| `Centroids.VectorLayout` | crates/skeg-hull/src/saga/centroid.rs:32-34 | Where component j of a vector lies. |
| `Centroids.Refuses` | crates/skeg-hull/src/saga/centroid.rs:40-48 | A section is refused exactly if its length is not count * (4 + 4 * dim), and panics exactly if that leaves 64 bits. |
| `Centroids.DecodeIffEncoded` | crates/skeg-hull/src/saga/centroid.rs:21-66 | Bytes decode to a list if and only if they are its encoding. |
| `SagaMetas.EncodeBlock` | crates/skeg-hull/src/saga/meta.rs:26-35 | The slices filled make up the 64-byte block. |
| `SagaMetas.Layout` | crates/skeg-hull/src/saga/meta.rs:26-35 | Where the fields lie. |
| `SagaMetas.Refuses` | crates/skeg-hull/src/saga/meta.rs:38-44 | A block is refused exactly if it is not 64 bytes long. |
| `SagaMetas.DecodeIffPrefix` | crates/skeg-hull/src/saga/meta.rs:38-59 | Exactly the 64-byte blocks that agree with the encoding on 40 bytes decode to the value. |
| `Sagas.WriteSaga` | crates/skeg-hull/src/saga/write.rs:16-93 | Writes the image of every encodable saga, in a fresh file under a header of version 1 that says SagaV1, the saga's build time and sections 1, 2 and 3; names the error for every other saga. |
| `Sagas.WrittenHeader` | crates/skeg-hull/src/saga/write.rs:39-68 | What a written saga's header says. |
| `Sagas.ReadSagaFrom` | crates/skeg-hull/src/saga/read.rs:18-115 | Over arbitrary streams: what the bytes decode to, errors in the source's order, or an I/O error. |
| `Sagas.ReadRefuses` | crates/skeg-hull/src/saga/read.rs:18-115 | Which error a file is refused with: that of opening it, the first missing section, or the first of the checks and decodings in their order. |
| `Sagas.WritableExactly` | crates/skeg-hull/src/saga/write.rs:29-86 | When an encodable saga can be written, and the length of its file, in terms of the sizes of its two lists. |
| `Sagas.SagaRoundTrip` | crates/skeg-hull/src/saga/read.rs:18-115 | For every saga that can be written: it reads back bit for bit, if and only if both lists have fewer than 2^32 elements; the error otherwise. |
| `Sagas.TooManyCentroids` | crates/skeg-hull/src/saga/write.rs:18-24 | A saga of 2^32 empty centroids is written without an error and then refused. |
| `Sagas.PanicsExactly` | crates/skeg-hull/src/saga/read.rs:61-105 | Reading panics if and only if all three sections are there, the first two are intact, and the metadata declares 2^64 bytes of centroids or more. |
| `Sagas.HugeCountsPanic` | crates/skeg-hull/src/saga/centroid.rs:40-42 | A file that does. |
| `Sagas.ReadIsWritable` | crates/skeg-hull/src/saga/write.rs:29-86 | What was read can be written again if and only if the selected sections' lengths add up to a possible vector. |
| `Sagas.ReadIsEncodable` | crates/skeg-hull/src/saga/read.rs:89-114 | Whatever is read from any file can be encoded again. |
| `Sagas.RewritingNormalises` | crates/skeg-hull/src/saga/read.rs:18-115 | Then writing it and reading that again gives the same saga, however odd the first file was, and a second rewrite gives the same bytes. |
| `Sagas.SmallFilesNormalise` | crates/skeg-hull/src/saga/read.rs:18-115 | Any accepted file of at most 2^61 bytes can be rewritten so, even if its sections overlap. |
| `Sagas.SameSagaViews` | crates/skeg-hull/src/saga/read.rs:60-105 | Any two files that open read the same if for each id their last entries cover the same bytes with the same checksum, or are missing or out of range alike; ids may be repeated. |
| `Sagas.SagaLayoutIndependence` | crates/skeg-hull/src/saga/read.rs:60-105 | With unique ids in range: unknown sections, order, gaps, flags and reserved bytes make no difference. |
| `Sagas.AnyLayoutReads` | crates/skeg-hull/src/saga/read.rs:60-105 | A saga's payloads read back to it from any layout that carries them. |
| `Sagas.SagaBurstDetected` | crates/skeg-hull/src/saga/read.rs:28-34 | Any damage within four consecutive bytes of any sealed file is reported as FileChecksumFailed. |
| `Identities.EncodeSection` | crates/skeg-hull/src/kv_cache/identity.rs:30-59 | The encoding, or the error for a name over 65535 bytes. |
| `Identities.Layout` | crates/skeg-hull/src/kv_cache/identity.rs:30-59 | Where the fields lie. |
| `Identities.Refuses` | crates/skeg-hull/src/kv_cache/identity.rs:63-97 | Why a section is refused, in the order it is looked for, with each error. |
| `Identities.DecodeIffSpells` | crates/skeg-hull/src/kv_cache/identity.rs:63-108 | Bytes decode to an identity if and only if they spell it: trailing bytes and the bytes of an absent adapter are free, everything else is fixed. |
| `Identities.RoundTrip` | crates/skeg-hull/src/kv_cache/identity.rs:30-108 | Decoding undoes encoding. |
| `Shapes.EncodeSection` | crates/skeg-hull/src/kv_cache/shape.rs:137-150 | The bytes appended are the encoding. |
| `Shapes.Layout` | crates/skeg-hull/src/kv_cache/shape.rs:137-150 | Where the fields lie, and which numbers stand for which types and layouts. |
| `Shapes.Refuses` | crates/skeg-hull/src/kv_cache/shape.rs:154-178 | Why a section is refused: its length, its type number, its layout number; nothing else is. |
| `Shapes.DecodeIffEncoded` | crates/skeg-hull/src/kv_cache/shape.rs:137-178 | Bytes decode to a shape if and only if they are its encoding. |
| `Blobs.EncodeSection` | crates/skeg-hull/src/kv_cache/blob.rs:19-33 | The bytes appended are the encoding. |
| `Blobs.Layout` | crates/skeg-hull/src/kv_cache/blob.rs:19-33 | Where the parts lie. |
| `Blobs.Refuses` | crates/skeg-hull/src/kv_cache/blob.rs:35-85 | Why a section is refused when no length overflows, in the order it is looked for, with each error. |
| `Blobs.DecodeIffEncoded` | crates/skeg-hull/src/kv_cache/blob.rs:19-87 | Bytes decode to a blob if and only if they are its encoding. |
| `Blobs.PanicsExactly` | crates/skeg-hull/src/kv_cache/blob.rs:43-76 | Decoding panics if and only if a declared length overflows when added to the position it is read from. |
| `Blobs.HugeLengthPanics` | crates/skeg-hull/src/kv_cache/blob.rs:43-44 | Nine bytes that make it panic. |
| `BlobSizes.PlainCountsEveryByte` | crates/skeg-hull/src/kv_cache/shape.rs:119-122 | The result is the count of bytes, layer by layer, K and V, head by head, token by token, element by element, of two bytes each for F16 and Bf16 and one for F8 and Q8. |
| `BlobSizes.ExpectedExactly` | crates/skeg-hull/src/kv_cache/shape.rs:113-132 | For every shape: the size, counted so if plain and tensor by tensor if quantised, if it can be computed; a panic if not. |
| `BlobSizes.PlainPanicsExactly` | crates/skeg-hull/src/kv_cache/shape.rs:119-122 | The size is computed if and only if layers * heads * dim and the whole product fit 64 bits. |
| `BlobSizes.ZeroTokensCanPanic` | crates/skeg-hull/src/kv_cache/shape.rs:119-122 | A shape of no tokens for which it is not. |
| `BlobSizes.QuantisedPanicsExactly` | crates/skeg-hull/src/kv_cache/shape.rs:123-130 | A quantised size is computed if and only if the group size is not zero and the elements of a tensor, their bits, its bytes and the whole size fit 64 bits; and what it then is. |
| `BlobSizes.ZeroGroupsPanic` | crates/skeg-hull/src/kv_cache/shape.rs:123-127 | With a group size of zero it never is. |
| `BlobSizes.QuantisedCountsEveryByte` | crates/skeg-hull/src/kv_cache/shape.rs:123-130 | When groups divide the head dimension and rows end on a byte, the result is the count of packed bytes, scales and biases, two bytes to a scale or bias for F16 and Bf16 and one for F8 and Q8. |
| `BlobSizes.FewerTokensFit` | crates/skeg-hull/src/kv_cache/shape.rs:123-130 | If a size can be computed, so can the size for fewer tokens. |
| `BlobSizes.QuantisedIsAdditive` | crates/skeg-hull/src/kv_cache/shape.rs:123-130 | With whole rows, if the size for all tokens can be computed, it is the sum of the sizes for some and for the rest. |
| `BlobSizes.FloorsLoseLessThanOne` | crates/skeg-hull/src/kv_cache/shape.rs:126-128 | In general each floor loses less than a byte, or a group, per K or V tensor. |
| `BlobSizes.ScalesMeetDocumentation` | crates/skeg-hull/src/kv_cache/shape.rs:108-128 | The code's scale bytes equal the documented formula's if and only if the elements left over from all rows do not fill a group. |
| `BlobSizes.ScalesCanDiffer` | crates/skeg-hull/src/kv_cache/shape.rs:108-128 | A shape for which they differ. |
| `KvCaches.WriteKvCache` | crates/skeg-hull/src/kv_cache/write.rs:13-89 | Writes the image of every cache whose name fits, in a fresh file under a header of version 1 that says KvCacheV1, the cache's creation time and sections 1, 2 and 3; refuses the others without touching the stream. |
| `KvCaches.WrittenHeader` | crates/skeg-hull/src/kv_cache/write.rs:36-70 | What a written cache's header says. |
| `KvCaches.ReadKvCacheFrom` | crates/skeg-hull/src/kv_cache/read.rs:19-129 | Over arbitrary streams: what the bytes decode to, errors in the source's order, or an I/O error. |
| `KvCaches.ReadRefuses` | crates/skeg-hull/src/kv_cache/read.rs:19-129 | Which error a file is refused with: that of opening it, the first missing section, or the first of the checks, decodings and the size comparison in their order; and when it panics instead. |
| `KvCaches.WritableExactly` | crates/skeg-hull/src/kv_cache/write.rs:24-82 | When a cache can be written, and the length of its file, in terms of the lengths of its name, blob and logits. |
| `KvCaches.CacheRoundTrip` | crates/skeg-hull/src/kv_cache/read.rs:19-129 | For every cache that can be written: it reads back exactly if its blob has the size its shape calls for, gives the size error if it has another, and panics if and only if the size arithmetic overflows or divides by zero, which is spelt out for plain and quantised shapes. |
| `KvCaches.ZeroGroupsPanic` | crates/skeg-hull/src/kv_cache/read.rs:107-118 | Every cache with a group size of zero is written without an error, and reading it divides by zero. |
| `KvCaches.PanicsExactly` | crates/skeg-hull/src/kv_cache/read.rs:60-118 | Reading any file panics if and only if all three sections are intact, the first two decode, and a length in the blob overflows, or the blob decodes and the shape's size cannot be computed. |
| `KvCaches.ReadIsWritable` | crates/skeg-hull/src/kv_cache/write.rs:24-82 | What was read can be written again if the selected sections' lengths add up to a possible vector. |
| `KvCaches.ReadIsConsistent` | crates/skeg-hull/src/kv_cache/read.rs:107-128 | Whatever is read from any file has a writable name and a blob of the right size. |
| `KvCaches.RewritingNormalises` | crates/skeg-hull/src/kv_cache/read.rs:19-129 | Then writing it and reading that again gives the same cache, however odd the first file was, and a second rewrite gives the same bytes. |
| `KvCaches.SmallFilesNormalise` | crates/skeg-hull/src/kv_cache/read.rs:19-129 | Any accepted file of at most 2^61 bytes can be rewritten so, even if its sections overlap. |
| `KvCaches.SameCacheViews` | crates/skeg-hull/src/kv_cache/read.rs:60-105 | Any two files that open read the same if for each id their last entries cover the same bytes with the same checksum, or are missing or out of range alike; ids may be repeated. |
| `KvCaches.CacheLayoutIndependence` | crates/skeg-hull/src/kv_cache/read.rs:60-105 | With unique ids in range: unknown sections, order, gaps, flags and reserved bytes make no difference. |
| `KvCaches.AnyLayoutReads` | crates/skeg-hull/src/kv_cache/read.rs:60-105 | A cache's payloads read back to it from any layout that carries them; unknown sections may even have wrong checksums. |
| `KvCaches.CacheBurstDetected` | crates/skeg-hull/src/kv_cache/read.rs:28-34 | Any damage within four consecutive bytes of any sealed file is reported as FileChecksumFailed. |
| `Scrub.VerifySection` | crates/skeg-hull/src/scrub.rs:172-229 | For every sequence of short reads the finding names the section and the outcome is the one-shot verdict: a read error exactly if the section cannot be sought or, not being empty, does not lie in the file; clean exactly if its bytes have the declared checksum; else a mismatch naming both checksums. Where a read failed, a read error. |
| `Scrub.PiecesGiveVerdict` | crates/skeg-hull/src/scrub.rs:186-228 | Any reads that follow one another from the section's offset, however short, give that verdict when they are fed to the builder one by one. |
| `Scrub.ReadsGiveReport` | crates/skeg-hull/src/scrub.rs:126-168 | Any reads a whole scrub may make of a file, header, table and sections, give the report on that file. |
| `Scrub.ScrubFile` | crates/skeg-hull/src/scrub.rs:126-168 | If the header does not parse, the report names the error, has no findings and is not clean; else it has one finding per table entry with that section's identity and outcome. It is clean if and only if the file is sound; failing reads only ever turn findings into read errors. |
| `Scrub.CleanIffSound` | crates/skeg-hull/src/scrub.rs:73-79 | A report is clean if and only if the header parses and every entry can be sought and either lies in the file with the checksum of its bytes or is empty and declares zero. |
| `Scrub.NoneBadIffAllClean` | crates/skeg-hull/src/scrub.rs:73-87 | The bad count is zero if and only if every finding is clean. |
| `Scrub.BadCountCounts` | crates/skeg-hull/src/scrub.rs:82-87 | The bad count is the number of findings that are not clean. |
| `Scrub.ReportToResult` | crates/skeg-hull/src/scrub.rs:269-288 | Ok if and only if there is no header error and every finding is clean; else the header error, or that of the first bad finding: a mismatch becomes SectionChecksumFailed, a read error Malformed. |
| `Scrub.SagaScrubsClean` | crates/skeg-hull/src/scrub.rs:126-168 | Every file write_saga writes scrubs clean. |
| `Scrub.CacheScrubsClean` | crates/skeg-hull/src/scrub.rs:126-168 | Every file write_kv_cache writes scrubs clean, even one the reader will refuse for its blob size. |
| `Scrub.AcceptedSagaScrubs` | crates/skeg-hull/src/scrub.rs:126-168 | In any file the saga reader accepts, the entries it selected scrub clean. |
| `Scrub.AcceptedCacheScrubs` | crates/skeg-hull/src/scrub.rs:126-168 | In any file the cache reader accepts, the entries it selected scrub clean. |
| `Scrub.DamageIsLocated` | crates/skeg-hull/src/scrub.rs:143-229 | Damage to at most four consecutive bytes of one payload turns exactly that section's finding into a mismatch. |
| `EndToEnd.ConcurrentReadGivesOneSaga` | crates/skeg-hull/src/saga/mod.rs:99-121 | If a target starts as a saga or absent and every call for it writes one, every completed read decodes to the one that was in place when the file was opened. |
| `EndToEnd.CrashLeavesOneSaga` | crates/skeg-hull/src/saga/mod.rs:99-121 | Under the same conditions what any crash leaves is absent or decodes to one of those sagas. |
| `EndToEnd.AlwaysReadsAsSaga` | crates/skeg-hull/src/saga/mod.rs:99-121 | Through any number of crashes the target is absent or reads as the very saga it is the image of. |
| `EndToEnd.ScrubIsOfOneValue` | crates/skeg-hull/src/scrub.rs:23-27 | However the seeks and reads of a scrub interleave with renames onto the file, its report is that on the one value, sound or damaged, that was in place when the scrubber opened it. |
| `EndToEnd.ScrubOfSagasIsClean` | crates/skeg-hull/src/scrub.rs:23-27 | So it is clean if every call for the target writes a saga. |
| `EndToEnd.ScrubOfCachesIsClean` | crates/skeg-hull/src/scrub.rs:23-27 | And if every call for it writes a cache. |
| `EndToEnd.ConcurrentReadGivesOneCache` | crates/skeg-hull/src/kv_cache/mod.rs:92-107 | If a target starts as a cache with a blob of the right size, or absent, and every call for it writes one, every completed read decodes to the one that was in place when the file was opened. |
| `EndToEnd.CrashLeavesOneCache` | crates/skeg-hull/src/kv_cache/mod.rs:92-107 | Under the same conditions what any crash leaves is absent or decodes to one of those caches. |
| `EndToEnd.WriteSagaToPath` | crates/skeg-hull/src/saga/mod.rs:99-110 | Ok means that the target took on exactly the image of this saga at a moment within the call; otherwise nothing was published. An encodable saga is written unless a system call fails; any other, once its file is created, is refused with the error that names what is wrong with it. |
| `EndToEnd.WriteFirstSaga` | crates/skeg-hull/src/saga/mod.rs:99-110 | There is a directory, with a leftover in it, and a machine on it where a first call writes its saga, under whichever name it draws: what the theorems assume can be met. |

## Left out

- AtomicWriter.AtomicWrite: requires that no earlier call since the last crash has drawn the same name, with the same pid, clock reading and counter value; by `ProtocolNames.UnwrappedNameIsNew` that takes 2^64 calls of one process.
- ProtocolSteps.ReachableInv: assumes that no target is temp-shaped, and that other programs leave targets alone and touch temp-shaped names only to remove leftovers; a program that picks a leftover to remove and removes it after a call has made its own file of that name is not covered.
- Sagas.WriteSaga: requires that an encodable image fits `isize::MAX` bytes, the most a Rust vector can hold.
- KvCaches.WriteKvCache: requires the same, and that blob and logits are themselves possible vectors.
- KvCaches.ReadIsWritable: says when what was read can be written in one direction only, because trailing bytes of an identity section are not written back; `KvCaches.WritableExactly` is exact.
- Memory-mapped reading and `madvise`: foreign calls that feed the same reader.
- `scrub_dir`, `looks_like_hull`, `scrub_loop` and `elapsed`: directory walking, timing, threads.
- Opening the file in `scrub_file` and `read_from_path`: the model starts from an open stream.
- `KvCache::write_to_path`: the same closure as for sagas.
- Error texts and the kinds of I/O error: every I/O error is one value, every `Malformed` error names its cause.
- Path handling in `atomic_write`: targets without a parent directory or file name, and directories other than the target's.
- Retrying of interrupted calls, and running out of memory, including buffers sized from untrusted counts.
- The release build's wrapping arithmetic: overflow is `Panic` only.
- A closure that keeps a duplicate of the file handle and writes through it after returning.
- Filesystem calls as anything finer than one step, network filesystems, reuse of process ids while a call is running.
- Float semantics: a centroid's components are bit patterns, so NaN equals itself.
- `Saga::empty`, `centroid_count`, `payload_bytes`, the KV and Vamana format ids, which have no reader or writer, and the performance gates.
