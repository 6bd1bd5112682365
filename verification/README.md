# weaveFS: a verified model

weaveFS keeps versioned, encrypted files on the disks of a few nodes that hold copies for each other. This
project models its store, its wire protocol and its cipher in Dafny 4.11 and proves what they keep: that a
disk of path-named files and JSON indexes behaves as one history per file, that concurrent callers see it as if
they came one after the other, exactly which writes a crash can tear, that the copies of a version on any two nodes
are the same bytes unless one of three steps is taken, and that a file can be got back from any custodian that still
lists it. `dafny verify dfyconfig.toml` checks everything.

## How it is built

| file | models |
|---|---|
| `Base` | bytes, results, and a stream that arrives in arbitrary pieces and ends cleanly or broken |
| `Codec` | length-prefixed messages (`internal/proto/codec.go`) |
| `Aes` | the streaming counter-mode blob format (`internal/crypto/aes.go`; section 6.5 of NIST SP 800-38A) |
| `KeyFile` | the node's key file (`internal/crypto/key.go`) |
| `Files` | a disk, its file operations, the states a crash can leave, atomic replacement (`internal/fsutil/atomic.go`) |
| `Versions`, `Layout` | index entries and lists, version identities (section 4.4 of RFC 4122), paths (`internal/store/version.go`, `store.go`) |
| `Histories` | the abstract object: entries, latest pointer, stored bytes; every store operation as a step on it |
| `Plans` | every store operation as the sequence of file operations it performs |
| `Store` | the store's methods, on the disk (`internal/store/store.go`, `raw.go`) |
| `Refinement`, `LiveBlobs`, `Buckets` | the disk simulates one history per file for every run; exactly when removing whole directories breaks that |
| `Crashes`, `Concurrency` | stopping a plan anywhere; goroutines interleaving their plans under the per-key lock |
| `Transfers`, `Laws` | what the receivers and `GetVersion` do to a history; undo, rollback, sequence numbers |
| `Exchanges`, `Server`, `EndToEnd` | messages, both sides of each exchange, and both sides together over a cut stream (`internal/server`) |
| `FanOut` | the per-peer goroutines of `replicate` and `Share` and their account |
| `Protocol`, `Agreement`, `Consistency`, `EveryRun`, `Recovery`, `Handover`, `Hazards` | the network as a state machine at lock granularity and its theorems |
| `Realisation`, `Intake`, `Serving` | the network run on real disks; what a handler does there is the network's steps |

A store method is proved to carry out exactly the plan of its operation, to pass only through states that a
crash of that plan could leave, and to return what the plan's outcome says. `Refinement` relates plans to
steps on histories, `Exchanges` relates the server's methods to `Transfers`, and `Realisation` shows that
every step of the network state machine is one such operation on the disk of one node, so that what is proved
of histories and of the network holds of the disks. `Intake` and `Serving` go the
other way: what a handler or a sender does with its disk and its stream is one or two steps of the network.

## Assumptions

- Version identities and IVs are fresh. SHA-1 is any function to 40 hex digits. Of the texts it is applied to, keys and
  keys joined with identities, it is assumed that those in use on one node have different digests; for the joined texts
  that their first five digits differ, because deletion removes the directory these name. `ApartIffSeparated` shows that
  for identities as they are minted this is an assumption about SHA-1 and texts alone. `LiveBlobs` and the network run of
  `Realisation` need it only of versions listed at the same moment. `Buckets` assumes of SHA-1 only that whole digests
  differ, and proves the exact condition: no removed directory holds the blob of a version that stays listed.
- The JSON text of indexes and messages is any lossless codec. AES is any keystream byte by IV and position.
- Every node runs this code, and `MaxVersions` does not change during the life of a store. Renaming is atomic,
  file operations reach the disk in order, and an opened blob is a snapshot of its bytes.
- Every node of the network encrypts (`cmd/weavefs` sets a cipher); single-store results also cover no cipher.

## Hazards

Three steps spoil agreement, and `StepKeepsAgreementIff` shows that no others do. The condition of each can be
seen before the step is taken. `Hazards` gives a run in which each occurs and says what it leaves behind.

- A blob is read to be sent while a receiver is between storing a short transfer and deleting it. The reader's
  length is taken from the file, so the short copy is accepted as whole (`ShortCopySpreads`).
- A transfer breaks off while it overwrites a version that is already listed. The listed blob is cut and nobody
  undoes it (`TornCopyStays`).
- The latest version changes between the two lookups of one request, and one version's metadata travels with
  another's bytes (`LatestMixedUp`).

A confirmed copy can also be lost without any of them, without a delete and without retention: two transfers of one
version to the same node cross, and the undo of the one that fell short takes away what the other stored
(`ConfirmedCopyGoes`). A copy stays listed until one of these three removes it (`CopyStaysListed`).

Without the last, every copy in every run is still a beginning of the original under the right metadata, and is
whole exactly if it has the length its metadata announces (`CopiesBeginTheOriginal`); whatever a get returns is a
beginning of the original plaintext with its true length beside it (`RecoversABeginning`); and shares under way,
confirmed or refused are what they claim to be (`SharesAreTrue`, `ShareHandsOver`). In every run whatever, metadata is
true and every copy is a beginning of the blob of some version of the same file (`CopiesBeginSome`).

## Where the code and its comments differ

The model follows the code.

- `nextSeq` is documented as one more than the highest `Seq` (`internal/store/version.go:127`); it is one more
  than the last. `StepAscendsIff`, `RunAscendsIff`, `NextSeqIsHighest` and `RefetchRepeatsNumber` say when the two
  agree.
- `upsertVersion` is said to keep the list oldest first (`internal/store/raw.go:119-120`); a version fetched back
  after it was dropped is appended last.
- A failed raw write is said to leave only an orphan (`internal/store/raw.go:96-99`); that holds only for versions not
  yet listed (`WriteIsCrashAtomicIff`, `TornCopyStays`). A retried one is said to converge
  (`internal/store/raw.go:77-79`); it does if it arrives whole, listed or not (`StoredIsRead`), but one that breaks off
  over a listed version leaves that version cut (`FailedTransferRestoresIff`, `TornCopyStays`).
- `SizeBytes` is documented as the number of bytes in the stored blob (`internal/store/version.go:27`); it is the
  plaintext length.
- Different pairs of node and key are said to have independent locks (`internal/store/store.go:155-157`); pairs whose
  joined names coincide share one. `Concurrency` models that, and it does no harm.

## Model

| member | source | states |
|---|---|---|
| `Codec.PrefixRoundTrip` | internal/proto/codec.go:43-45 | a length written in four big-endian bytes is read back, for every length below 2^32 |
| `Codec.FrameBytes` | internal/proto/codec.go:28-51 | a frame is the length in four bytes, most significant first, and then the payload |
| `Codec.WriteMessage` | internal/proto/codec.go:28-51 | one frame is written if the message is within the limit, nothing otherwise |
| `Codec.ReadMessage` | internal/proto/codec.go:63-84 | however the stream is fragmented, the result and what is left of the stream depend only on the bytes |
| `Codec.FrameRoundTrip` | internal/proto/codec.go:28-84 | every frame the writer emits is read back whole and nothing after it is consumed |
| `Codec.ParseSucceedsIff` | internal/proto/codec.go:53-84 | exactly what reads as a message: a frame within the limit whose payload decodes to it, with everything after it left |
| `Codec.TooLargeIff` | internal/proto/codec.go:53-84 | exactly an announced length above one mebibyte is refused as too large, and nothing after the announcement is read |
| `Codec.CutFrameIsAnError` | internal/proto/codec.go:56-78 | every proper prefix of a frame is an error |
| `Codec.CutMessageThenBody` | internal/proto/codec.go:53-84 | a message followed by a body and cut anywhere is an error or that message with the beginning of the body left |
| `Codec.MessagesThenBlob` | internal/proto/codec.go:53-84 | reading any sequence of messages returns exactly them and leaves the following blob untouched |
| `Aes.EncryptPieces` | internal/crypto/aes.go:101-117 | a blob written in any pieces is the blob of the plaintext joined: magic, version, IV, and then each byte combined with the keystream byte of its position |
| `Aes.SealedIff` | internal/crypto/aes.go:83-117 | a blob is what is stored for a plaintext exactly if it is that, byte by byte |
| `Aes.OpensIff` | internal/crypto/aes.go:119-146 | exactly what opens, and as which plaintext; and which of the other blobs give which error |
| `Aes.OtherKeyOpensIff` | internal/crypto/aes.go:119-146 | under another keystream a blob reads as its plaintext exactly if the two agree as far as it is long |
| `Aes.DecryptReader` | internal/crypto/aes.go:119-146 | exactly the blobs with a whole and valid header open, each other one with its own error |
| `Aes.DecryptAll` | internal/crypto/aes.go:119-146 | reading through the cipher in any pieces yields what opening the whole blob yields |
| `Aes.SealLength` | internal/crypto/aes.go:83-87 | a blob is exactly 21 bytes longer than its plaintext |
| `Aes.OpenCutSeal` | internal/crypto/aes.go:119-146 | a blob cut anywhere after the header decrypts to the matching prefix of the plaintext, inside it to an error |
| `KeyFile.KeyRoundTrip` | internal/crypto/key.go:71-93 | the text saved for a key decodes to that key, with any white space after it |
| `KeyFile.HexAt` | internal/crypto/key.go:71-80 | the text saved has two digits for each byte of the key, the more significant first |
| `KeyFile.HexDecodeIff` | internal/crypto/key.go:82-93 | exactly the texts that are those digits, in either case, decode to those bytes |
| `KeyFile.ExistingIsOnlyRead` | internal/crypto/key.go:26-58 | a start that finds a key file leaves the disk as it was, whatever the file holds, and fails if it does not decode |
| `KeyFile.LoadOrCreateKey` | internal/crypto/key.go:42-80 | an existing key file is only read; a missing one is replaced atomically by the key that is returned |
| `KeyFile.OneKeyForever` | internal/crypto/key.go:26-58 | over any starts and crashes, every start that returns a key returns the same one |
| `Files.WriteFileAtomic` | internal/fsutil/atomic.go:27-42 | the file operations performed, and that only states of that plan are passed through |
| `Files.ReplaceIsAtomic` | internal/fsutil/atomic.go:14-26 | stopped anywhere, the target is exactly the old or exactly the new content, and nothing else but the temporary changes |
| `Layout.CASPathTransformFunc` | internal/store/store.go:68-94 | the loop computes the blocks of five and the file name of the digest |
| `Layout.CASPathShape` | internal/store/store.go:77-94 | the eight blocks rejoin to the 40-digit name, and the first of them is the deleted directory |
| `Layout.BucketHolds` | internal/store/store.go:149-153 | the directory removed for one version holds another's blob exactly if their first five digits agree |
| `Layout.NoPathInsideAnother` | internal/store/version.go:55-63 | no blob path is an ancestor of another blob or index path, and equal paths mean equal digests |
| `Layout.OwnersDiffer` | internal/store/store.go:143-153 | different files of a node never touch the same path |
| `Layout.ApartIffSeparated` | internal/store/version.go:48-53 | for minted identities, different directories for different versions is an assumption on SHA-1 over joined texts, and exactly that |
| `Layout.PathsTellVersions` | internal/store/version.go:48-53 | if SHA-1 separates the joined texts of a node, two of its versions have one blob path exactly if they are the same version |
| `Layout.BucketsDiffer` | internal/store/store.go:149-153 | the directories removed for two versions in use are the same exactly if the versions are |
| `Versions.NewUUID` | internal/store/version.go:113-125 | every identity has the 36-character version 4 shape and is the text of the random bytes drawn, version and variant apart |
| `Versions.UUIDTextInjective` | internal/store/version.go:113-125 | identities are equal only if the bytes they were made from are |
| `Versions.VersionedKeyInjective` | internal/store/version.go:48-53 | key and identity can be told apart in the joined name, whatever the key contains |
| `Versions.ResolveVersion` | internal/store/store.go:364-383 | the first entry of the wanted identity, the latest for an empty one, and each error |
| `Versions.ResolveMeans` | internal/store/store.go:364-383 | exactly which entry is found, and when it is which error |
| `Versions.UpsertVersion` | internal/store/raw.go:119-129 | the entry is replaced where it stands or appended |
| `Versions.UpsertMeans` | internal/store/raw.go:119-129 | identities stay unique, exactly the given one is added, and no other entry changes |
| `Versions.FilterInPlace` | internal/store/store.go:468-478 | filtering a slice over itself leaves exactly the other entries in order |
| `Versions.PrunedMeans` | internal/store/store.go:349-362 | retention splits the list in two disjoint parts, keeps within the limit, and never drops the last entry |
| `Versions.PrunedIsNewest` | internal/store/store.go:349-362 | what is dropped is the front of the list, no more than the limit requires, and nothing without one |
| `Histories.DecodedCut` | internal/crypto/aes.go:83-87 | with or without a cipher the stored length is the plaintext length plus the overhead, and cuts decode to cuts |
| `Histories.WrittenSurvives` | internal/store/raw.go:105-108 | the version just written is never pruned by its own write |
| `Histories.StepWellFormed` | internal/store/store.go:306-362 | every operation keeps identities unique and non-empty, the latest listed, empty only with the list, and the limit |
| `Histories.RunWellFormed` | internal/store/store.go:306-498 | so after every run; the latest of a non-empty list always resolves, and no listed version lacks its blob |
| `Store.Body.Read` | internal/server/server.go:707-718 | the limit and the counter: no byte past the promise is taken, and the counter is what was read |
| `Store.Copy` | internal/store/store.go:215-221 | exactly the bytes that arrive before the end or the promise reach the file, for every pattern of short reads, and it ends |
| `Store.Store.LoadIndex` | internal/store/version.go:65-81 | a missing index is an empty one, an unreadable one an error |
| `Store.Store.SaveIndex` | internal/store/version.go:83-111 | the index is replaced atomically |
| `Store.Store.WriteStream` | internal/store/store.go:173-222 | the blob file holds what arrived, encrypted byte by byte or as it is, cut short where the source broke |
| `Store.Store.PruneOldestVersions` | internal/store/store.go:349-362 | the list kept and the directories removed |
| `Store.Store.WriteVersion` | internal/store/store.go:305-347 | the disk afterwards, every state in between, the entry or error returned, and what was read |
| `Store.Store.WriteVersionRaw` | internal/store/raw.go:67-117 | the same for verbatim writes |
| `Store.Store.DeleteVersion` | internal/store/store.go:456-498 | the same for deleting one version |
| `Store.Store.Delete` | internal/store/store.go:280-297 | the same for deleting a file |
| `Store.Store.Has` | internal/store/store.go:267-278 | true exactly if the index loads and has a latest version |
| `Store.Store.VersionInfo` | internal/store/store.go:430-448 | the metadata of a version by the rule reads use |
| `Store.Store.ReadVersionRaw` | internal/store/raw.go:38-65 | the bytes of a version as they are on disk, or which error |
| `Store.Store.ReadVersion` | internal/store/store.go:385-410 | the recorded size and the plaintext, or which error |
| `Store.Store.RollbackTo` | internal/store/store.go:500-512 | the target's plaintext is written as a new version; nothing changes if it cannot be read |
| `Refinement.OpRefines` | internal/store/store.go:280-498 | each operation on the disk takes its history one abstract step and fails exactly when that does |
| `Refinement.RunRefines` | internal/store/store.go:280-498 | for every sequence of operations on any files, the disk and the map of histories stay in step |
| `LiveBlobs.RunRefinesWhileApart` | internal/store/store.go:450-454 | the same when only blobs that are live at the same time must differ in their first component |
| `Refinement.ReadsRefine` | internal/store/raw.go:38-65 | reading the disk is reading the history, error cases included |
| `Refinement.CorruptIsLeftAlone` | internal/store/version.go:65-81 | with an index that does not parse every operation and every read fails, and the disk is not changed |
| `Refinement.DanglingIsAnError` | internal/store/raw.go:38-65 | a listed version without its blob reads as an error, never as an empty file |
| `Refinement.OpsFrame` | internal/store/store.go:143-153 | an operation on one file leaves every path of another as it is |
| `Refinement.DropRemovesExactlyItsBucket` | internal/store/store.go:450-454 | deletion changes exactly the subtree it names; another blob survives if and only if its first five digits differ |
| `Refinement.CollidingDropLosesAnother` | internal/store/store.go:450-454 | two listed versions with equal first digits: deleting one leaves the other listed without its blob |
| `Buckets.BlobAfter` | internal/store/store.go:280-498 | what becomes of any blob in any operation, however digests collide: gone if its directory is removed, the bytes just written at its path, or as it was |
| `Buckets.IndexAfter` | internal/store/version.go:65-111 | however they collide, the operation leaves the list it should and no other list changes |
| `Buckets.OpFollowsIff` | internal/store/store.go:450-454 | an operation does on the disk what it does in the histories if and only if no directory it removes, by retention or delete, holds the blob of a version that stays listed in any file of the node |
| `Buckets.RunFollowsIff` | internal/store/store.go:450-454 | so for every sequence of operations, at every moment of it |
| `Buckets.ApartIsSpared` | internal/store/store.go:450-454 | live blobs with different first digits meet that condition |
| `Buckets.SeparatedIsDistinct` | internal/store/version.go:48-53 | the assumption made here follows from one on SHA-1 and joined texts alone |
| `Buckets.UnlistedIsGone` | internal/store/store.go:349-362 | whatever an operation takes off a list, by retention or delete, has no blob on the disk afterwards |
| `Buckets.OpStraysIff` | internal/store/raw.go:96-99 | on a disk where exactly the listed versions have blobs, an operation keeps that if and only if it is not a write that breaks off before its version was ever listed |
| `Buckets.RunLeavesNoStrays` | internal/store/store.go:280-498 | so after every run without such writes a version has a blob exactly if it is listed |
| `Crashes.WriteIsCrashAtomicIff` | internal/store/store.go:305-347 | for every write, exactly when it can be stopped anywhere and leave the old or the new history: a new version if and only if retention drops nothing; a listed one if and only if its new blob is empty, or one byte over an empty one, and blob or index stay the same |
| `Crashes.RestoringIsCrashAtomicIff` | internal/store/raw.go:67-117 | the second half, for storing a listed version again |
| `Crashes.WriteIsCrashAtomic` | internal/store/store.go:305-347 | the old or the new history at each crash point of a write of a new version that drops nothing |
| `Crashes.OnlyDroppedMayDangle` | internal/store/store.go:335-342 | with pruning the index always loads, and a listed version can lack its blob only if it was being dropped |
| `Crashes.RestoringIsNotCrashAtomic` | internal/store/store.go:186-191 | storing a listed version again can be stopped at a state that is neither the old nor the new history |
| `Crashes.PruningIsNotCrashAtomic` | internal/store/store.go:335-342 | so can a write for which retention drops a version: blobs go before the index is saved |
| `Crashes.DropCrash` | internal/store/store.go:493-497 | stopped inside a version delete, only the version being deleted can lack its blob |
| `Crashes.DropAllCrash` | internal/store/store.go:287-296 | stopped inside a full delete, nothing, or the old list with every blob still there as it was |
| `Crashes.CrashFrame` | internal/store/store.go:143-153 | a crash inside one operation never shows in another file |
| `Concurrency.Serialisable` | internal/store/store.go:155-162 | for any number of calls in any interleaving of their file operations, disk and results, the entries writes return included, are those of the calls in the order they released their locks; taking the lock and loading the index are steps of their own |
| `Concurrency.SomeoneMoves` | internal/store/store.go:155-162 | in every reachable state, while some call has not returned, some thread can take a step |
| `Concurrency.StepsRunOut` | internal/store/store.go:155-162 | every step of any thread brings the calls nearer to their end, so no execution goes on for ever |
| `Concurrency.EveryCallCanReturn` | internal/store/store.go:155-162 | every execution, wherever it has got to, can go on to one in which every call has returned |
| `Concurrency.OnlyOwnFileBlocks` | internal/store/store.go:155-162 | a call waits for its lock only while another call on the same file holds it, if node names contain no colon |
| `Concurrency.DifferentFilesCommute` | internal/store/store.go:155-162 | calls on different files give the same disk in either order |
| `Transfers.StoredIsRead` | internal/store/raw.go:67-117 | what a write stored is the latest and is read back as it was stored, after retention |
| `Transfers.LoopRecovers` | internal/server/server.go:396-413 | however earlier peers fail or fall short, the loop ends with the whole version as soon as one sends all of it |
| `Laws.FailedTransferRestoresIff` | internal/server/handlers.go:68-91 | a transfer is kept exactly if it arrived whole; one that is not kept restores list and blobs under exactly this condition, and what the latest then is |
| `Laws.RestoredSurvivesIff` | internal/store/raw.go:105-108 | exactly when an entry replaced in place survives retention: the length bound is what saves it |
| `Laws.OthersReadTheSame` | internal/store/store.go:335-342 | a write changes what is read only for its own version and those retention drops |
| `Laws.WrittenIsRecorded` | internal/store/store.go:322-347 | the metadata a local write records: its identity, time and message, the plaintext length, one more than the last number |
| `Laws.DropRewinds` | internal/store/store.go:456-498 | a delete takes one version off and keeps the others in order; the latest changes only if it was deleted, and then to the last one left |
| `Laws.OutcomeTells` | internal/store/store.go:280-498 | what succeeds has been done, and what fails leaves the list and the latest as they were |
| `Laws.FailureMeans` | internal/store/raw.go:80-103 | exactly when an operation fails, and with which error |
| `Laws.RoomKeepsEverything` | internal/store/store.go:335-342 | with room left, the list is extended and every earlier version reads as before |
| `Laws.RollbackRestores` | internal/store/store.go:500-512 | after a rollback the latest reads as the target did when it was read, whatever happened in between and even if the target is pruned; with room, old history and reads are kept |
| `Laws.StepAscendsIff` | internal/store/raw.go:105-108 | one operation keeps the numbers increasing exactly if it is no raw write out of order, in place or appended, whatever the limit and however full the list |
| `Laws.RunAscendsIff` | internal/store/version.go:127-134 | over every run, numbers increase strictly at every moment if and only if all raw writes are in order |
| `Laws.NextSeqIsHighest` | internal/store/version.go:127-134 | while they increase, the next number is one more than the highest, as documented |
| `Laws.LocalRunsAreOrderly` | internal/store/version.go:127-134 | runs without raw writes are such runs |
| `Laws.RefetchRepeatsNumber` | internal/store/version.go:127-134 | a fetched-back version makes a later write repeat a number |
| `Agreement.StepKeepsAgreementIff` | internal/server/handlers.go:32-163 | one step of the network keeps agreement if and only if it is none of the three hazards |
| `Agreement.SafeTrailsAgree` | internal/server/server.go:318-370 | so does every run without them |
| `Agreement.ReplicasAgree` | internal/server/server.go:318-370 | two nodes that list a version, neither about to undo it, hold the origin's metadata and the origin's bytes, of plaintext length plus 21 |
| `Agreement.AcksAreSound` | internal/server/handlers.go:65-91 | whoever answered OK had every byte of the origin's blob, under the origin's metadata, on disk as its write returned |
| `Consistency.StepKeepsConsistency` | internal/server/handlers.go:94-163 | every step but serving a latest that has changed keeps all copies beginnings of the originals |
| `Consistency.CopiesBeginTheOriginal` | internal/server/server.go:652-667 | in every such run, hazards included, a copy has the right metadata and is whole exactly if it has the announced length |
| `EveryRun.StepKeepsRough` | internal/server/handlers.go:32-239 | no step, hazards included, makes listed metadata untrue or a blob anything but a beginning of the blob of some version of the same file |
| `EveryRun.CopiesBeginSome` | internal/server/handlers.go:123-151 | so what any node lists in any run is a version of that file with true metadata and a beginning of the blob of some version of that file |
| `EveryRun.ArrivingIsRough` | internal/server/handlers.go:123-151 | any part that arrives of any transfer in any run is an answer of that kind |
| `EveryRun.GetsSomeBeginning` | internal/server/server.go:382-414 | in every run, what a get returns is at worst a beginning of the plaintext of some version of the file |
| `Recovery.RecoversAfterAnyRun` | internal/server/server.go:382-414 | after any run without hazards, asking for a version returns the original plaintext and its length as soon as one stream from a peer that lists it arrives whole, whichever peer answers first and however others fail |
| `Recovery.RecoversLatest` | internal/server/server.go:372-414 | the same for a get that names no version: of the latest the origin lists, or if it lists none, of a version that a peer called its latest |
| `Recovery.CopyStaysListed` | internal/server/handlers.go:65-91 | a copy a node has stored stays listed until a step deletes it, makes retention drop it, or undoes another transfer of it |
| `Recovery.RecoversLocally` | internal/server/server.go:384-392 | at any moment, a version the origin lists and is not about to undo reads as its original plaintext and length |
| `Recovery.CustodianCanAnswer` | internal/server/handlers.go:123-151 | whatever happens between its two lookups, a custodian that lists a version and is not about to undo it can answer, and sends the origin's blob |
| `Recovery.StaysListedThroughout` | internal/store/store.go:456-498 | a version stays listed through every run in which no step deletes it or makes retention drop it |
| `Recovery.FetchedStaysReadable` | internal/server/server.go:396-403 | once stored by a fetch and not taken off the list, a version reads as the original at every later moment, whatever else happens in between |
| `Recovery.RecoversABeginning` | internal/server/server.go:382-414 | in runs with hazards, whatever a get returns is the original length and a beginning of the original plaintext |
| `Handover.SharesAreTrue` | internal/server/server.go:488-514 | a share under way announces the true length of the version it was read from and carries a beginning of its plaintext, in every run |
| `Handover.AcceptedIsReadable` | internal/server/handlers.go:205-221 | what has arrived of a share is the recipient's latest and reads under its key, earlier versions are kept, and nobody else's copies change, whatever has become of the sender |
| `Handover.CheckedIsWholeOrGone` | internal/server/handlers.go:223-238 | whatever has happened since, checking confirms exactly a whole share and otherwise removes that version alone |
| `Handover.ShortShareIsUndone` | internal/server/handlers.go:223-233 | a short share checked at once leaves list and blobs as they were, if retention has room |
| `Handover.ConfirmedShareReads` | internal/server/handlers.go:235-238 | a confirmed share reads as the sender's original wherever it is still listed and settled |
| `Handover.ShareHandsOver` | internal/server/server.go:429-534 | from reading the file to any later moment, with any steps in between and nothing asked of the sender: confirmed if and only if all of it arrived, removed if not, and readable as the original if so |
| `Hazards.ShortCopySpreads` | internal/server/handlers.go:123-151 | what reading a copy about to be undone leads to |
| `Hazards.TornCopyStays` | internal/store/raw.go:96-103 | what a transfer that breaks off over a listed version leads to |
| `Hazards.LatestMixedUp` | internal/server/handlers.go:125-140 | what a latest that changes between its two lookups leads to |
| `Hazards.ConfirmedCopyGoes` | internal/server/handlers.go:70-85 | a run without hazard, delete or retention after which a confirmed copy is no longer listed |
| `Hazards.ShortReadHappens` | internal/server/handlers.go:70-85 | a run in which the first occurs, on every network |
| `Hazards.TornCopyHappens` | internal/store/raw.go:77-79 | a run in which the second occurs |
| `Hazards.LatestMixUpHappens` | internal/server/handlers.go:125-131 | a run in which the third occurs |
| `Exchanges.MetaRoundTrip` | internal/server/server.go:676-705 | metadata put on the wire becomes the entry it came from; only the length of the transfer is dropped |
| `Exchanges.TakeRefines` | internal/server/handlers.go:65-91 | receiving on the disk is receiving in the history, and no other file on the disk changes |
| `Exchanges.GetRefines` | internal/server/server.go:382-414 | `GetVersion` on the disk is `Get` on the history |
| `Exchanges.RollbackOnDisk` | internal/store/store.go:500-512 | after a rollback the latest on disk reads as the target did |
| `Exchanges.AnswerCrossesWire` | internal/server/server.go:629-652 | metadata and blob cut anywhere reach the fetching node as nothing or as honest metadata with a beginning of the blob |
| `Server.FileServer.HandleStore` | internal/server/handlers.go:30-92 | the disk and the response for every request, allowed or not, and every way the blob arrives |
| `Server.FileServer.HandleGet` | internal/server/handlers.go:94-163 | exactly what is sent for every request, whatever other calls make of the disk between the two lookups |
| `Server.FileServer.HandleShare` | internal/server/handlers.go:165-239 | the disk and the response for every share request |
| `Server.FileServer.SendBlob` | internal/server/server.go:318-370 | exactly what is sent, and that success is the peer's OK |
| `Server.FileServer.SendReadable` | internal/server/server.go:488-534 | the plaintext and its size are sent, and the placement is what the peer reported |
| `Server.FileServer.FetchBlob` | internal/server/server.go:602-668 | the request sent and the disk afterwards, for whatever the peer sends |
| `Server.FileServer.GetVersion` | internal/server/server.go:382-414 | the disk and the result for every list of peers |
| `EndToEnd.StoreConfirmedIff` | internal/server/handlers.go:46-91 | OK is answered exactly if the request is readable, allowed and sound and every promised byte arrived |
| `EndToEnd.StoreRefusedChangesNothing` | internal/server/handlers.go:46-63 | a store request that is unreadable, refused or unsound leaves the disk as it was |
| `EndToEnd.ShareConfirmedIff` | internal/server/handlers.go:179-239 | a share is confirmed exactly if its request is readable, allowed and sound, every promised byte arrived and the index loads; one that is unreadable, refused or unsound leaves the disk as it was |
| `EndToEnd.SharedIsRecorded` | internal/server/handlers.go:205-238 | a confirmed share is the recipient's latest, with its own identity, number and time, the announced size and the sender's message |
| `EndToEnd.GetAnsweredIff` | internal/server/handlers.go:108-151 | a get request goes unanswered exactly if it is unreadable, and is answered with a blob exactly if it is allowed and both lookups succeed; the entry is the first one's, length and bytes the second's |
| `EndToEnd.ReplicaIsExactOrAbsent` | internal/server/server.go:318-370 | whatever part of a store request arrives, the custodian confirms exactly a whole one and then holds the origin's bytes; otherwise its list and blobs are as before |
| `EndToEnd.SharedIsReadableOrAbsent` | internal/server/handlers.go:165-239 | whatever part of a share request arrives, the recipient confirms exactly a whole one, with its own identity and number, and its latest then reads as the sender's plaintext; otherwise its list and blobs are as before |
| `EndToEnd.AnswersAreHonest` | internal/server/handlers.go:123-162 | whatever part of a peer's answer arrives, and whatever changes between its two lookups, the origin sees nothing or what those lookups found; of an explicit version both are of that version |
| `EndToEnd.PeersAreHeard` | internal/server/server.go:602-652 | of any peer in the list whose stream opens, whatever part of its answer arrives is heard as honest, and all of it as exactly that answer |
| `EndToEnd.RefusalIsDeclined` | internal/server/server.go:629-640 | a refusal is no answer, whatever part of it arrives |
| `EndToEnd.CountedPeersHold` | internal/server/server.go:293-302 | as many custodians as a write result counts hold, on their own disks, the origin's bytes under the origin's entry |
| `EndToEnd.WholeExchangeConfirms` | internal/server/server.go:350-370 | if nothing is cut off in either direction the origin counts the custodian |
| `Realisation.StepRealised` | internal/server/handlers.go:65-91 | a step of the network and one store operation on one node's disk keep logs and disks the same |
| `Realisation.TrailRealised` | internal/server/handlers.go:65-91 | so does every run from empty disks, hazards included |
| `Realisation.RecoversOnDisk` | internal/server/server.go:382-414 | recovery as it is read from the origin's own disk |
| `Realisation.RecoversLatestOnDisk` | internal/server/server.go:372-414 | the same for a get that names no version |
| `Realisation.RecoversABeginningOnDisk` | internal/server/server.go:382-414 | what runs with hazards leave of it |
| `Realisation.GetsSomeBeginningOnDisk` | internal/server/server.go:382-414 | what every run leaves of it |
| `Intake.TakingInIsHandling` | internal/server/server.go:652-667 | wherever a run has got to, storing and checking any part of a transfer on the node's disk is going on with the steps Receive and Check, or Abort: the disks are those of the longer run, and the transfer is accepted exactly if the protocol confirms it |
| `Intake.StoreHandlerIsHandling` | internal/server/handlers.go:30-92 | so for the custodian's handler on any part of the request that sendBlob put on the wire, with OK exactly if all of it arrived |
| `Intake.ShareHandlerIsHandling` | internal/server/handlers.go:165-239 | the recipient's handler on any part of the request that sendReadable put on the wire is the steps AcceptShare and Check, with OK exactly if the protocol confirms it; a stream that breaks off too early changes no log |
| `Serving.SendBlobIsSending` | internal/server/server.go:318-345 | sendBlob reads from the disk what the step SendBlob puts under way, and fails exactly where that cannot be taken |
| `Serving.SendReadableIsSharing` | internal/server/server.go:488-514 | the same for sendReadable |
| `Serving.GetHandlerIsServing` | internal/server/handlers.go:94-163 | whatever happens between its two lookups, an authorised custodian answers with a blob exactly if the network can take the step Serve there, and sends exactly what that step puts under way |
| `Serving.CustodianIsHonest` | internal/server/server.go:629-667 | what a get hears of a custodian's handler is nothing or true of the version asked for, and it is the whole version if the custodian keeps it, may give it and all it sends arrives |
| `Serving.RecoversFromCustodians` | internal/server/server.go:382-414 | after any run without hazards, if all that one custodian's handler sends arrives, `GetVersion` returns the original plaintext and its length from the disk and those streams, whatever part of the other custodians' answers arrives |
| `FanOut.Replicate` | internal/server/server.go:265-316 | in whatever order the goroutines finish, the result is the same function of the selected peers and their outcomes |
| `FanOut.Share` | internal/server/server.go:444-478 | the same for shares, and a placement is set wherever no error is |
| `FanOut.FailuresInOrder` | internal/server/server.go:293-301 | one failure per peer that refused, with its own error, in selection order, and no other |
| `FanOut.PlacementsInOrder` | internal/server/server.go:469-477 | one placement per peer that accepted, with the version it reported, in selection order, and no other |
| `FanOut.TriedIsStoredPlusFailed` | internal/server/server.go:77-99 | every peer tried is counted once |

## Left out

- libp2p hosts, discovery, identity keys, deadlines and stream negotiation: a peer is a stream that opens or not, and then carries some bytes and ends cleanly or broken.
- The HTTP API, the command line, aliases, logging, `ResolveTargets`, `ListVersions`, `Clear` and the methods that only delegate.
- Secrecy, and anything an untruthful node could do. Authorizers are a yes or a no for each request.
- Full disks, permissions, failing removals, directories (created and removed with what is in them) and fsync. A write can be stopped by its source or by a crash at any byte; writing to a stream does not fail.
- The text of JSON, of hex and of error messages beyond which error it is. `decodeKey` trims the ASCII white space only.
- The mutexes in the methods of `Store`, which run one call at a time; `Concurrency` interleaves the plans of those methods under the lock table. Readers that run beside each other are not threads there.
- Crashes in the network runs: `Crashes` treats them for one store at a time. A receiver that stops between storing and checking is a window that never closes.
- Time and the entropy pool are parameters. The network state machine lets any transfer be taken in more than once, any node be asked at any time and any copy be dropped, which includes everything the code does; a share that breaks off changes no log and is not a step.
- Recovery.RecoversAfterAnyRun: no other call on the same file comes between the fetches and the final read of one `GetVersion`; `Recovery.CustodianCanAnswer` and `Recovery.FetchedStaysReadable` say what holds with any steps in between.
- Recovery.RecoversLatest: the same, for a get that names no version.
- Realisation.RecoversOnDisk: the same, on the disk, and so Realisation.RecoversLatestOnDisk.
- Intake.ShareHandlerIsHandling: as for Intake.StoreHandlerIsHandling.
- Intake.StoreHandlerIsHandling: no other call on the same file comes between storing and undoing in one call of the handler; the steps it is shown to be may be taken apart in a run.
- Serving.RecoversFromCustodians: the same; each custodian's lookups may be at any two moments of the run.
- Server.FileServer.GetVersion: the same, for the method, as in HandleStore, HandleShare and FetchBlob between storing and undoing; the steps of the network take each acquisition of the lock on its own.
- A disk is not reused under another cipher, path function or retention limit.
- `DefaultPathTransformFunc`, which is for tests.
