# GoblinFTP: verified protocols

GoblinFTP puts a stateful Go backend in front of FTP and SFTP servers. This project models
the protocols that backend runs by hand and proves what they keep, over every input, every
interleaving and every answer a server can give.

| modules | what they model |
|---|---|
| `StorageLedger`, `ResourceBudget`, `TempFiles`, `StagedInventory` | the storage budget: charges per owner, orphan and bucket bytes, reserved chunks, one-shot release closures, charged temporary files, the paged bucket inventory |
| `Chunking`, `UploadProtocol`, `UploadLeases` | staged uploads as a transition system whose steps are what happens between two lock operations of reserve, chunk, commit, abort, eviction and the cleanup worker; who answers for every charge |
| `ChunkFiles`, `UploadHandlers`, `Slicing` | chunk files and the reader that plays them back, the chunk and commit handlers, the browser's slicing loop |
| `RemoteTree`, `Subtrees`, `RemoteUpload`, `CopyTree`, `RecursiveDelete`, `ArchiveExtraction`, `ChildPaths` | a remote server as a finite tree whose calls may fail, and everything that walks or changes it |
| `Throttle`, `SessionStore`, `Admission`, `SsoReplay` | login throttling, the session store, admission with credits, one-time login links, each with its runs |
| `LittleEndian`, `ZipPreflight` | the ZIP directory check, APPNOTE.TXT sections 4.3.12 and 4.3.14 to 4.3.16 |
| `KnownHosts` | trust on first use and re-pinning |
| `Base64`, `Decimal`, `DownloadToken`, `SsoToken` | base64url (RFC 4648 section 5) and the two token formats |
| `Texts`, `Paths`, `FreshNames` | path cleaning, validation and overlap, collision-free name suggestions |
| `MapSums`, `FiniteSets`, `Options`, `Limits` | sums over finite maps, cardinalities, optional values, integer widths and shared limits |

Code that changes things in place is a class or a method here, proved against a function or
a predicate; the pure code is functions with lemmas. Runs are sequences of actions, and the
main results about them hold for every run from the initial state.

Calls into what cannot be seen from here (the network, a server, the disk, the clock, another
goroutine) are nondeterministic: a body with `*` models an environment that may do either.
Flags such as `readable`, `writable` and `steady` say that no call of a kind fails for a
reason of its own, and `truthful` that a server claims nothing but what is there. Safety is
proved without them; with them success is proved to come exactly when the code's own
conditions are met.
Cryptography and the SSH and JSON libraries are function parameters; the laws assumed of them
are the `Lawful` predicates and the `Lowering` type, whose members are the per-character
lower-casings that leave separators, digits and brackets alone.

## Findings

Where the code does not do what its name or its documentation suggests, the code is modelled
as it is and the exact condition is proved.

- A copy reports success without copying when an empty source directory meets an existing
  file: a successful copy is exact if and only if no source directory meets a file, and on a
  server that can be read such a copy always succeeds (`CopyTree.SuccessIsExactIff`,
  `CopyTree.ClashesAreEmpty`, `CopyTree.CopyOverFile`).
- Re-pinning leaves exactly the new key if and only if no other key is pinned under another
  spelling of the host or by a marker rule and, where the host's own spelling is not read
  back, one of those pins the new key (`KnownHosts.OnlyNewKeyIff`,
  `KnownHosts.OtherSpellingSurvives`).
- A re-pin may change what a line means. A rewritten line reads as the original did, with
  the names that remain, if and only if what is left of its list is nothing or still starts
  like a list (`KnownHosts.RewriteReadsIff`); a list left with nothing but empty text, as by
  a trailing comma, loses the whole file (`KnownHosts.EmptiedListBreaks`,
  `KnownHosts.TrailingCommaBreaks`).
- A confirmed key verifies afterwards if and only if the SSH library reads the host's
  normalised spelling back. Where an IPv6 address on port 22 is written in brackets without a
  port and that spelling is not read back, pinning one locks every host out
  (`KnownHosts.RepinVerifiesIff`, `KnownHosts.AppendVerifiesIff`,
  `KnownHosts.BracketedAddressLocksOut`).
- A first pin is glued to the last line of a file unless that line is ended or blank
  (`KnownHosts.AppendGluesIff`).
- A recursive delete lists the parent of what is deleted if and only if the session is FTP
  and the server does not recognise the lookup that opens the call, as no server without MLST
  does; no other command of either adapter names anything outside (`RecursiveDelete.FtpStat`,
  `RecursiveDelete.Delete`).
- The refresh of the bucket total is added without a check: it stays within 64 bits if and
  only if leases, orphans and the new total together do (`StorageLedger.RefreshFitsIff`).
- An archive entry that is a file named `.` asks for the parent of the destination; every
  other directory made lies on or under the destination
  (`ArchiveExtraction.DirectoryUnderDestination`, `ArchiveExtraction.DotIsTheDestination`).
- A tar archive may have 9999 entries where a ZIP may have 10000: where nothing else fails,
  each is extracted if and only if it unpacks and is within its own limit, and what a ZIP
  unpacks to a tar does as well (`ArchiveExtraction.ExtractZip`, `ArchiveExtraction.ExtractTar`,
  `ArchiveExtraction.ZipThenTar`, `ArchiveExtraction.SkippedUnpack`).
- Once 512 MiB have been delivered even an empty file fails, and a file that ends exactly
  there is read only if its reader reports the end with the last bytes
  (`ArchiveExtraction.Send`).
- An upload whose destination is spelled with a trailing slash makes a directory of that name
  and cannot succeed; otherwise, where nothing else fails, it succeeds if and only if no file
  stands on the way and the destination is no directory and free or consented to
  (`RemoteUpload.UploadSimple`, `UploadHandlers.UploadCommit`).
- A login that decrypted a link in time may mark it at any later moment, and wins a mark that
  another login already holds exactly when the link has expired by then. The hard expiry of
  the second session is what keeps the link one-time (`SsoReplay.MarkWinsIff`,
  `SsoReplay.MarkedTwice`, `SsoReplay.OneSessionPerToken`).
- A download token whose subject holds a colon never validates (`DownloadToken.IssuedValidates`).
- Commit's check of the recorded chunk sizes can only fail on a missing chunk; the total it
  reads back from the files is what decides (`UploadHandlers.RecordedTotal`,
  `UploadHandlers.VerifiedTotal`).

## Model

| member | source | states |
|---|---|---|
| `StorageLedger.InitialIsSound` | backend/internal/api/resources.go:45-81 | a budget that starts with the orphans it found charged and nothing leased conserves and is within its caps |
| `StorageLedger.ReserveKeepsSound` | backend/internal/api/resources.go:83-120 | after any reservation attempt `used` still equals live leases plus orphans plus bucket bytes, every balance equals its owner's live leases, and live leases stay within the global and per-owner caps even while orphans or the bucket push `used` above them |
| `StorageLedger.GrantedIff` | backend/internal/api/resources.go:83-120 | in every ledger that conserves and is within its caps a reservation is granted if and only if the bucket answers, the start-up scan did not fail, the size is not negative, live leases, orphans still there, the bucket and the size are within the global cap together, and the owner's own live leases and the size within the owner's |
| `StorageLedger.ReserveLeaves` | backend/internal/api/resources.go:83-120 | what an attempt leaves besides its charge: orphans that are gone are forgotten, a new inventory is noted, and an unavailable bucket changes nothing |
| `StorageLedger.ReleaseKeepsSound` | backend/internal/api/resources.go:107-118 | running any release closure, also a second time, keeps conservation and the caps |
| `StorageLedger.ReleaseLeaves` | backend/internal/api/resources.go:107-118 | running a closure takes away exactly its own charge, if that is still live |
| `StorageLedger.ChunksKeepSound` | backend/internal/api/resources.go:260-275 | counting and uncounting an upload's chunks keeps the chunk total equal to its live leases and within 100000 |
| `StorageLedger.ChunksGrantedIff` | backend/internal/api/resources.go:260-275 | chunks are granted if and only if all that are counted and the new ones are at most 100000 |
| `StorageLedger.ChunksLeave` | backend/internal/api/resources.go:260-275 | counting adds the one share, uncounting takes it away if it is counted, and no byte total moves |
| `StorageLedger.ReserveThenRelease` | backend/internal/api/resources.go:83-120 | a successful reservation undone at once leaves every balance and total as a refused one would |
| `StorageLedger.CountersFit` | backend/internal/api/resources.go:83-120 | with the cap, the orphans and the bucket total before and after the refresh below 2^63 together, so are the refreshed counter, the counter without gone orphans, both differences compared and what is left by the reservation |
| `StorageLedger.RefreshFitsIff` | backend/internal/api/resources.go:86-95 | the refreshed counter fits 64 bits if and only if live leases, orphans and the new bucket total together do, and never goes below zero |
| `ResourceBudget.Budget.DropOrphans` | backend/internal/api/resources.go:83-101 | the sweep over orphans removes exactly those whose directory is gone and gives back exactly their bytes |
| `ResourceBudget.Budget.Reserve` | backend/internal/api/resources.go:83-120 | the whole new state, lease or refusal, is that of the ledger function, and the returned closure is live |
| `ResourceBudget.Budget.Release` | backend/internal/api/resources.go:107-118 | the closure counts once: the latch and the ledger agree before and after, and a second run changes nothing |
| `ResourceBudget.Budget.ReserveUpload` | backend/internal/api/resources.go:260-275 | bytes and chunks are charged together or not at all: refused chunks leave the ledger as if the bytes had been released |
| `ResourceBudget.Budget.ReleaseUpload` | backend/internal/api/resources.go:260-275 | an upload's closure gives back its bytes and its chunks exactly once |
| `TempFiles.QuotaTemp.Write` | backend/internal/api/resources.go:149-168 | bytes on disk never exceed the file's live charges nor 512 MiB; a refused write writes nothing and a short one stays fully charged; where nothing fails of its own it writes everything if and only if the file stays within 512 MiB and the budget grants the bytes |
| `TempFiles.QuotaTemp.Dispose` | backend/internal/api/resources.go:169-176 | a removed file gives back exactly its own charges, each once; one that cannot be removed stays charged; where removing does not fail it is removed |
| `StagedInventory.AddPage` | backend/internal/staging/s3.go:282-296 | a page is added if and only if every object is measured and the sum fits 64 bits, and then by exactly the bytes no live upload accounts for |
| `StagedInventory.StagedBytes` | backend/internal/staging/s3.go:268-303 | an inventory is answered if and only if some complete listing exists within 10000 pages and 64 bits, and then with that listing's total |
| `StagedInventory.TotalIs` | backend/internal/staging/s3.go:282-296 | that total adds up the sizes of exactly the objects that belong to an upload and to none in progress |
| `StagedInventory.WalksAgree` | backend/internal/staging/s3.go:276-301 | two walks through the same bucket see the same pages as far as both go |
| `Chunking.LastChunk` | backend/internal/api/upload.go:122 | an accepted plan has at least one chunk and a non-empty last chunk no longer than the others |
| `Chunking.AcceptedIff` | backend/internal/api/upload.go:110-124 | a plan is accepted if and only if it has 1 to 100000 chunks, the chunk size is positive and within the limit, and the chunks before the last leave at least one byte for it and no more than fits |
| `Chunking.ExpectedTotal` | backend/internal/api/upload.go:122 | the lengths demanded of the chunks add up to the reserved size |
| `Chunking.BoundedTotal` | backend/internal/api/upload.go:172-183 | chunk files no longer than their slots hold at most the reserved size together |
| `Chunking.ExactTotalForcesLengths` | backend/internal/api/upload.go:308-338 | if bounded chunk files hold exactly the reserved size, every chunk is there and has exactly its length |
| `UploadProtocol.StepKeepsShape` | backend/internal/api/session_close.go:23-72 | every step of reserve, chunk, commit, abort, eviction, cleanup worker and sweeper keeps the relation between locks, leases, closed flags and stored bytes |
| `UploadProtocol.StepKeepsSound` | backend/internal/api/upload.go:125-162 | every step keeps the ledger conserving and within its caps |
| `UploadProtocol.RunKeeps` | backend/internal/api/upload.go:95-414 | the two invariants hold after every run of any length and interleaving |
| `UploadProtocol.StoredNeedsLease` | backend/internal/api/upload.go:381-414 | an upload with anything stored holds a live lease of its owner for its whole size and stores no more than that |
| `UploadProtocol.EveryRunStaysWithinCaps` | backend/internal/api/session_close.go:23-72 | over every run staged bytes stay within the live leases and so within the global cap and each owner's cap, and no session has more uploads registered than the limit |
| `UploadProtocol.CommitReadsUndisturbed` | backend/internal/api/upload.go:276-358 | while a commit holds an open upload, no step of any other handler changes its files, its record or its lock; only the sweeper could |
| `UploadLeases.NothingLeaks` | backend/internal/api/session_close.go:23-72 | over every run, whatever fails and however handlers interleave, no charge is lost: each is another component's, a reservation's in progress, that of an open upload its session still lists, of one whose files are just being removed, or of one on the cleanup worker's list; once all is quiet no chunk is counted and only other components are charged |
| `UploadLeases.HolderGivesBack` | backend/internal/api/upload.go:338-414 | from every reachable state a session whose lock is free can commit an open upload in its list that no handler holds, and abort or evict any: a run leads to a state in which nothing is charged or stored for it and the lock is free again |
| `UploadLeases.FailedCleanupEnds` | backend/internal/api/upload.go:402-414 | a holder that cannot remove the files leaves as well: nothing is given back, and unless it was an abort the upload then waits for the cleanup worker |
| `UploadLeases.WorkerGivesBack` | backend/internal/api/session_close.go:48-72 | from every reachable state the cleanup worker, once it is free, can clear any entry of its list, with nothing charged or stored for it afterwards |
| `UploadLeases.UploadCanBegin` | backend/internal/api/upload.go:95-162 | wherever a run has come to, a session whose lock is free, that may have one more upload and whose plan is accepted can begin it if bytes and chunks are granted, and is charged for exactly both |
| `UploadLeases.ChunkCanBeStored` | backend/internal/api/upload.go:185-242 | any chunk of an open upload that nobody holds can be stored at its full length and recorded |
| `ChunkFiles.ChunkStore.WriteChunk` | backend/internal/transfer/upload.go:106-124 | a write that reports success stored the whole chunk; a failing one leaves the old file, or a beginning of the new one |
| `ChunkFiles.SequentialReader.Read` | backend/internal/transfer/upload.go:147-174 | whatever fails, what is delivered comes off the front of what was left; end of file comes only when nothing is left, never with data; with every file there and a disk that does not fail no read fails |
| `ChunkFiles.SequentialReader.Drain` | backend/internal/api/upload.go:319-333 | reading up to a limit delivers a prefix of the chunks in order: all of them, or as many bytes as the limit |
| `ChunkFiles.SendFrom` | backend/internal/api/upload.go:340-345 | an upload from the reader that reports success left exactly the concatenated chunks at the destination; one that fails left what was there or a beginning of them; nothing else is touched; where nothing fails of its own it succeeds if the destination can hold a file |
| `ChunkFiles.AssembleReader` | backend/internal/transfer/upload.go:126-138 | a reader exists only if every chunk file does |
| `UploadHandlers.UploadChunk` | backend/internal/api/upload.go:185-242 | refuses exactly a closed upload, or an index out of range or a body that is not of the length demanded, and then changes nothing; otherwise the file of that index becomes the body, or on a failure stays or becomes a beginning of it, and no other file changes |
| `UploadHandlers.ConcatLength` | backend/internal/transfer/upload.go:147-174 | the length of the played-back stream is the sum of the stored lengths |
| `UploadHandlers.VerifiedTotal` | backend/internal/api/upload.go:319-338 | the total read back equals the reserved size only if every chunk is present at its expected length |
| `UploadHandlers.RecordedTotal` | backend/internal/api/upload.go:308-318 | the recorded sizes add up exactly when no index is missing, whatever the files hold |
| `UploadHandlers.StoredSizeMatches` | backend/internal/api/upload.go:319-338 | the verification pass succeeds only if the stored stream has the reserved size, and always then unless the disk fails |
| `UploadHandlers.CleanupUpload` | backend/internal/api/upload.go:402-414 | closes the upload, removes only chunk files, reports release only when all are gone, and reports it whenever the disk does not fail |
| `UploadHandlers.Publish` | backend/internal/api/upload.go:338-358 | the server gets the stream as read, or a beginning of it on a failure; a destination that existed before an overwrite is still there on every outcome, and one this call created is removed without touching anything older, always so on a server that tells the truth and works; success adds exactly the missing directories and the file; on a disk that does not fail no chunk file is left |
| `UploadHandlers.UploadCommit` | backend/internal/api/upload.go:244-358 | whatever reaches the server is the in-order concatenation of the chunks, each of its expected length, or a beginning of it on a failure; a destination that existed never vanishes, and without consent nothing that existed changes and, on a server that tells the truth and works, a failed upload leaves no piece behind; a refusal before publishing leaves chunks, record and server alone, and on a working system is the one the upload's state calls for; where nothing fails of its own it succeeds if and only if the upload is open, every chunk is recorded, they add up, and the place is free or consented to |
| `UploadHandlers.DeletingLitter` | backend/internal/api/upload.go:345-352 | deleting a partial upload where nothing had been removes nothing that existed before the commit |
| `Slicing.Slices` | frontend/app/stores/upload.ts:383-399 | every slice is the file's range for its index and has exactly the length the server demands |
| `Slicing.ReservationAcceptedIff` | backend/internal/api/upload.go:110-124 | the client's plan for a file is accepted if and only if its chunk size and chunk count are within the two limits |
| `Slicing.LastWriteWins` | backend/internal/transfer/upload.go:106-124 | after any sequence of sends, re-sends and failures an index whose last write went through holds its slice |
| `Slicing.RoundTrip` | frontend/app/stores/upload.ts:393-416 | sent in any order with any re-sends, as long as each index's last write succeeded, the chunks play back exactly the file |
| `Slicing.FullLengthsPlayBack` | backend/internal/api/upload.go:308-338 | after any sends, chunk files of full length play back the file itself, whatever the outcomes were |
| `Slicing.GoodWritesSuffice` | backend/internal/api/upload.go:308-338 | good last writes put every chunk on record and make the stream the file |
| `Slicing.SendSlices` | frontend/app/stores/upload.ts:393-416 | slices sent through the chunk handler in any order with any repeats leave staged exactly what the record of the handler's outcomes says, and a send is acknowledged exactly when it was stored whole |
| `Slicing.UploadFile` | backend/internal/api/upload.go:95-358 | end to end through reserve, chunk handler and commit: whatever failed on the way, only the original bytes are published, and a commit that succeeds leaves exactly the file at the destination; where nothing fails of its own it succeeds if and only if the plan is accepted, every slice was sent and the destination can receive it |
| `RemoteUpload.EnsureDirAllCreated` | backend/internal/api/files.go:234-261 | success adds exactly the missing directories on the way, `created` means that it did not exist before, and where nothing fails of its own exactly that; then it succeeds if and only if no file stands on the way, and where lookups do not fail exactly when the directory is there afterwards |
| `RemoteTree.OnlyMissingDirs` | backend/internal/api/files.go:234-261 | what the creation leaves is the old tree with exactly the missing directories of that path |
| `RemoteUpload.DestinationTaken` | backend/internal/api/upload.go:38-49 | free is reported only for a definite absence |
| `RemoteUpload.FreshParentIsEmpty` | backend/internal/api/upload.go:72-91 | a destination under a directory that did not exist cannot have existed, so the skipped probe loses nothing |
| `RemoteUpload.UploadSimple` | backend/internal/api/upload.go:51-93 | without consent no outcome changes or removes anything that existed, and an existing destination is never reported written, but, where nothing fails of its own, as taken; with consent only the destination changes; success leaves exactly the missing directories and the body, and comes, where nothing fails of its own, exactly when the destination can receive a file |
| `RemoteUpload.ReceivableIff` | backend/internal/api/upload.go:51-93 | once its directory is made, a file can be put at a destination if and only if no file stood on the way, it is no directory and is not spelled as one |
| `CopyTree.CopyTreeDepth` | backend/internal/api/files.go:265-310 | on any outcome nothing off the destination changes but missing directories above it; on success, when neither path lies in the other, the destination is the old one merged with the source, one visit spent for each entry; on every outcome only whole files of the source are ever sent; an empty directory is copied onto anything that exists without a change |
| `CopyTree.CopyTree` | backend/internal/api/files.go:263-270 | the whole copy with its 100000 visits: where nothing fails of its own and neither path lies in the other, it succeeds if and only if the source and a place for it are there, it has no more entries than visits and is no deeper than 64, every name is valid, and no file meets a directory nor a directory with entries a file |
| `CopyTree.UnderMore` | backend/internal/api/files.go:299-303 | each child costs as many visits as there are entries below it |
| `CopyTree.ChildCopyable` | backend/internal/api/files.go:299-303 | whether a child can be copied is not changed by the copies of its siblings |
| `CopyTree.CopyFile` | backend/internal/api/files.go:312-337 | on any outcome, failures included, what is sent is the whole content of the source file, never a truncated read; success is an exact copy and, where nothing fails of its own, comes if the destination can hold a file |
| `CopyTree.SourceUnchanged` | backend/internal/api/files.go:265-337 | on any outcome the whole source subtree is what it was |
| `CopyTree.SuccessIsExactIff` | backend/internal/api/files.go:283-309 | a successful copy reproduces every source entry if and only if no source directory met a file at its destination |
| `CopyTree.ClashesAreEmpty` | backend/internal/api/files.go:283-309 | a directory that met a file without failing the copy had no entries |
| `CopyTree.CopyOverFile` | backend/internal/api/files.go:283-309 | on a server that can be read, copying an empty directory onto a file returns success, changes nothing and is no exact copy |
| `RecursiveDelete.FtpStat` | backend/internal/ftp/ftp.go:226-270 | a lookup sends one query and, if and only if the server does not recognise it, one listing of the parent |
| `RecursiveDelete.DeleteDepth` | backend/internal/ftp/ftp.go:284-327 | whatever the server answers: every command sent names a path at or below the requested one, save that the second lists its parent exactly when the opening lookup is not recognised; a unit of budget pays for at most four commands, depth is bounded by 64, and success means the subtree is gone and nothing else changed |
| `RecursiveDelete.DeleteBudget` | backend/internal/sftp/sftp.go:165-197 | the same for SFTP with three commands to a visit and no exception, where every entry costs a visit and names are checked one by one |
| `RecursiveDelete.Delete` | backend/internal/ftp/ftp.go:276-282 | refuses the root; at most 400000 commands over FTP and 300000 over SFTP; all name paths at or below the requested one if and only if the session is SFTP or the server recognises the opening lookup, and none changes anything outside; on success exactly the requested subtree is missing; where the server tells the truth, whether or not its listings show the dots of a directory and its parent, and nothing fails of its own, it succeeds if and only if the path is there, has no more than 100000 entries, every name below it is valid, and no directory (over SFTP no entry) is deeper than 64 |
| `RecursiveDelete.EntryCostIs` | backend/internal/ftp/ftp.go:308-325 | deleting one entry of a listing costs one unit for each entry below its name, and can be done exactly as if its siblings were still there |
| `RecursiveDelete.WalkEnds` | backend/internal/sftp/sftp.go:165-197 | after the walk over a truthful listing, dots shown or not, the directory is empty if and only if it has no child named by one or two dots |
| `ChildPaths.ChildSegments` | backend/internal/ftp/ftp.go:312 | at any depth, both spellings the adapters and handlers use for a child are the directory's segments followed by the entry's name, and are directories of the same kind again |
| `ArchiveExtraction.SafeJoinLands` | backend/internal/api/archive.go:132-151 | for every validated destination the join is the destination's segments followed by the name's own, and only the checks on the name reject, never the final prefix test |
| `ArchiveExtraction.RefusedIff` | backend/internal/api/archive.go:132-151 | a name is refused if and only if it is empty, starts with a slash, holds a backslash, NUL, CR or LF, starts like a drive, has more than 63 slashes, or two dots stand alone between slashes |
| `ArchiveExtraction.DirectoryUnderDestination` | backend/internal/api/archive.go:260-270 | the directory made for an entry lies on or under the destination if and only if it is a directory entry, its name has a segment, or the destination is the root |
| `ArchiveExtraction.DotIsTheDestination` | backend/internal/api/archive.go:132-151 | a name of one dot is accepted and names the destination itself |
| `ArchiveExtraction.ExtractBudget.Next` | backend/internal/api/archive.go:78-87 | no more than 10000 entries are ever let through |
| `ArchiveExtraction.ExtractBudget.Read` | backend/internal/api/archive.go:98-114 | however the archive's reader behaves, bytes delivered and bytes remaining add up to 512 MiB; nothing is delivered once they are used up; of a sound entry the next bytes are delivered and its end reported only at its end |
| `ArchiveExtraction.Send` | backend/internal/api/archive.go:274-281 | success stores exactly the bytes delivered and charged, of a sound entry its content, and changes only that file; a failure leaves the old file or a beginning of them; with the budget used up it fails; where nothing fails of its own it succeeds if and only if the entry fits what remains and the place can hold a file |
| `ArchiveExtraction.ExtractZip` | backend/internal/api/archive.go:247-286 | off the destination nothing changes but missing directories above it, and on every outcome no path that is new below it has a segment that is empty, one or two dots, or holds a slash, backslash, NUL, CR or LF; at most 512 MiB are delivered, and success means every entry was placed and the report counts them exactly; of a sound archive it leaves exactly the unpacked tree, and where nothing fails of its own it succeeds if and only if there is one and the entries are no more than 10000 |
| `ArchiveExtraction.ExtractTar` | backend/internal/api/archive.go:288-332 | the same for tar, if and only if the entries are fewer than 10000 |
| `ArchiveExtraction.LastEntryWins` | backend/internal/api/archive.go:274-281 | of several entries for one path the last decides, and the file holds exactly its content |
| `ArchiveExtraction.ZipThenTar` | backend/internal/api/archive.go:288-332 | entries that unpack as a ZIP unpack as a tar to the same tree |
| `ArchiveExtraction.SkippedUnpack` | backend/internal/api/archive.go:270-273 | any number of entries that are neither files nor directories unpack without a change |
| `ArchiveExtraction.ReportIs` | backend/internal/api/archive.go:247-332 | the report counts exactly the files and has one name for each entry passed over and none for any other |
| `Throttle.LoginThrottle.Reserve` | backend/internal/auth/admission.go:9-59 | the new table and the verdict are those of the reservation function, field by field |
| `Throttle.AdmittedIff` | backend/internal/auth/admission.go:9-59 | in every reachable state an attempt is let through if and only if the limit is positive, both keys fit the table, the account's failures in its running window plus its open settlements are below the limit and the address's accepted attempts in its own below four times it |
| `Throttle.TryReserves` | backend/internal/auth/admission.go:9-59 | each step of the runs is what the reservation function leaves |
| `Throttle.LoginThrottle.Settle` | backend/internal/auth/admission.go:42-57 | settling a second time changes nothing |
| `Throttle.LoginThrottle.Sweep` | backend/internal/auth/throttle.go:126-147 | the sweep drops exactly the expired entries with nothing in flight |
| `Throttle.SweptIff` | backend/internal/auth/throttle.go:126-147 | over every run exactly the entries go that are past their window and have nothing in flight |
| `Throttle.EveryRunIsThrottled` | backend/internal/auth/admission.go:9-59 | over every run an account's attempts equal its failures since its count was last cleared, in-flight counts equal the unsettled reservations, both together stay within the limit per account and accepted attempts within four times it per address, in-flight entries are never dropped, and the table stays within 10000 keys |
| `Throttle.WindowsHold` | backend/internal/auth/throttle.go:126-147 | no step forgets or lowers the count of an account or an address before its window has expired |
| `SessionStore.Store.GetByDownloadKey` | backend/internal/auth/session.go:171-182 | a download key finds a session exactly when one with that key is stored and alive |
| `SessionStore.Store.Touch` | backend/internal/auth/session.go:199-208 | extends only a session that is alive, and never past its hard expiry |
| `SessionStore.ExtendedLasts` | backend/internal/auth/session.go:199-208 | a session that was alive is so for exactly a full term from now, cut at its hard expiry; a dead one is not revived |
| `SessionStore.Store.SetExpiry` | backend/internal/auth/admission.go:97-104 | fixes both the expiry and the hard expiry of a stored session, and nothing else |
| `SessionStore.Store.Delete` | backend/internal/auth/session.go:211-218 | removes the session from both indexes, which keep holding the same sessions |
| `SessionStore.Store.Evict` | backend/internal/auth/session.go:283-338 | an expiry sweep drops exactly the expired sessions whose transfer lock is free; both indexes stay in step |
| `SessionStore.Store.Counts` | backend/internal/auth/admission.go:67-77 | the counting loop yields the sizes of the stored sets with the credited session left out |
| `SessionStore.Store.Reserve` | backend/internal/auth/admission.go:61-95 | granted if and only if all four limits have room, and then one more waits for that address |
| `SessionStore.Store.Free` | backend/internal/auth/admission.go:84-94 | runs once: one fewer waits for that address and no other count changes |
| `Admission.StepKeeps` | backend/internal/api/connect.go:104-182 | every step of connect, finalization, expiry and cancellation keeps counters, locks and capacity in agreement |
| `Admission.AdmittedIff` | backend/internal/auth/admission.go:61-95 | whenever the waiting counters are the reservations held, which they are over every run, a reservation is admitted if and only if sessions and reservations, in all and of its address, and reservations alone, in all and of its address, are below the four limits, the credited session not counted |
| `Admission.EveryRunIsWithinCapacity` | backend/internal/api/sso.go:214-310 | over every run, in all and per address: stored sessions not being replaced plus reservations still to mint stay within the limit; the store is never more than one above it, and within it when no finalization is in flight |
| `Admission.EveryRunWaitsWithinLimits` | backend/internal/auth/admission.go:61-95 | over every run the reservations held never exceed their limit, in all and per address |
| `Admission.AdmittedCanFinish` | backend/internal/api/sso.go:214-310 | wherever a run has come to, an admitted login can end with its session stored, its reservation given back and the pending session it replaces gone |
| `SsoReplay.UsedSet.MarkIfUnused` | backend/internal/sso/usedset.go:35-44 | the verdict and the new set are those of the marking function: a second presentation before expiry loses |
| `SsoReplay.UsedSet.CleanupExpired` | backend/internal/sso/usedset.go:90-100 | drops exactly the expired tokens |
| `SsoReplay.FirstIsKept` | backend/internal/sso/usedset.go:35-44 | a login that marked a token in time stays the only one that did |
| `SsoReplay.TouchKeeps` | backend/internal/auth/session.go:185-208 | extending sessions revives none that is past its hard expiry |
| `SsoReplay.StepKeeps` | backend/internal/api/sso.go:84-113 | every step of login, sweep, touch, cancel and finalization keeps the replay invariant |
| `SsoReplay.OneSessionPerToken` | backend/internal/api/sso.go:84-113 | over every run any two sessions of one token text that are retrievable at whatever two moments are the same session |
| `SsoReplay.ConnectionsAreInTime` | backend/internal/api/sso.go:214-310 | over every run each connection comes from a session of the login that marked its token before the expiry |
| `SsoReplay.ConnectionsHaveACause` | backend/internal/api/sso.go:214-310 | over every run each connection has its causes among the steps: the login of its session marked the token while it had not expired, and the session was taken up before the second it expires in |
| `SsoReplay.BoundIsTheEarlier` | backend/internal/api/sso.go:106-110 | right after a pending session is bounded it ends at the token's expiry or five minutes on, whichever is earlier |
| `SsoReplay.PendingLife` | backend/internal/api/sso.go:106-110 | from then on over every run, whatever touches come between, the session is retrievable no later than either |
| `SsoReplay.OneConnectionPerToken` | backend/internal/api/sso.go:214-310 | over every run two different connections come from two different tokens |
| `SsoReplay.MarkWinsIff` | backend/internal/sso/usedset.go:35-44 | in every reachable state a login wins the mark if and only if its token is not in the used set or is past its expiry; a token marked in time is won again exactly after its expiry |
| `SsoReplay.MarkedTwice` | backend/internal/sso/token.go:137-139 | for every token and every moment after its expiry there is a run in which two logins win its mark, the second at that moment |
| `SsoReplay.LinkWorks` | backend/internal/api/sso.go:214-310 | a link followed before its expiry second can be turned into a connection |
| `SsoToken.DecryptEncrypt` | backend/internal/sso/token.go:46-141 | an encrypted payload is read back through its last second and reported expired after it |
| `SsoToken.AcceptedIffSealed` | backend/internal/sso/token.go:90-141 | a token is accepted for a payload if and only if it is the encoding of 12 bytes, 16 bytes and at least one more that the cipher opens, the 16 behind the rest, to that payload, and it has not expired |
| `SsoToken.IssuedIsSealed` | backend/internal/sso/token.go:47-87 | an issued token has the iv first, then the tag, then the ciphertext |
| `SsoToken.ComparisonRulesOutBreaks` | backend/internal/sso/token.go:91-95 | the spelling check rejects a strictly decodable text if and only if it carries a line break |
| `SsoToken.OneSpelling` | backend/internal/sso/token.go:91-95 | two accepted texts are equal if and only if they decode to the same wire value |
| `SsoToken.BrokenSpelling` | backend/internal/sso/token.go:91-95 | strict decoding alone would accept a second spelling of every token |
| `ZipPreflight.FindEndRecord` | backend/internal/api/zip_preflight.go:15-35 | scanning the tail finds the last end record of the whole file, or there is none |
| `ZipPreflight.ReadZip64` | backend/internal/api/zip_preflight.go:46-78 | a ZIP64 directory is read if and only if locator and record are well formed and adjacent; the 64-bit sum never wraps |
| `ZipPreflight.ReadDirectory` | backend/internal/api/zip_preflight.go:36-78 | succeeds if and only if the end record describes a directory, and returns that one |
| `ZipPreflight.WalkHeaders` | backend/internal/api/zip_preflight.go:82-99 | succeeds if and only if exactly `count` central headers tile the directory |
| `ZipPreflight.WalksAgree` | backend/internal/api/zip_preflight.go:84-95 | headers leave no choice: two walks from one start agree |
| `ZipPreflight.PreflightZip` | backend/internal/api/zip_preflight.go:13-101 | accepts if and only if the last end record describes a directory within 10000 entries and 4 MiB that its headers tile up to the record; every index and 64-bit expression stays in range |
| `ZipPreflight.WrittenIsAccepted` | backend/internal/api/zip_preflight.go:13-101 | every directory within the bounds, written in classic or ZIP64 form with any record data and any comment in which no other end record starts, is accepted |
| `ZipPreflight.AcceptedIffWritten` | backend/internal/api/zip_preflight.go:13-101 | the accepted files are exactly those a writer can produce: any bytes, at most 10000 headers of at most 4 MiB in all, and their end records in classic or ZIP64 form with a comment in which no other end record starts |
| `ZipPreflight.SignatureBytes` | backend/internal/api/zip_preflight.go:22-93 | the four signatures are the bytes that APPNOTE.TXT gives them |
| `KnownHosts.RewriteReadsIff` | backend/internal/sftp/knownhosts.go:195-217 | a line of a readable file that is not refused reads, after the rewrite, as it did with the names that remain, if and only if what is left of its list is nothing or still starts like a list |
| `KnownHosts.UnnamedListStays` | backend/internal/sftp/knownhosts.go:209-216 | a list that names none of the re-pinned hosts is left as it is, empty names included |
| `KnownHosts.RewriteLines` | backend/internal/sftp/knownhosts.go:180-222 | the loop rewrites every line and gives up exactly when some line is a wildcard rule or a marker naming the host |
| `KnownHosts.RefusesIff` | backend/internal/sftp/knownhosts.go:185-204 | a line is refused if and only if it has three fields or more and its first holds an asterisk, a question mark or an exclamation mark, or starts with an at sign while the host stands alone between commas in its second |
| `KnownHosts.LineGoneIff` | backend/internal/sftp/knownhosts.go:180-217 | a rewrite removes exactly blank lines, hashes of a re-pinned name, and lists of nothing but such names |
| `KnownHosts.LineStaysIff` | backend/internal/sftp/knownhosts.go:180-217 | of the others exactly those change that are lists and name a re-pinned host; comments, short lines and markers stay word for word |
| `KnownHosts.OthersKeepTheirPins` | backend/internal/sftp/knownhosts.go:171-224 | every address whose spelling is not re-pinned keeps its pins, plain or hashed, in their order |
| `KnownHosts.HostPinsAfter` | backend/internal/sftp/knownhosts.go:171-224 | the host is pinned to the new key if its spelling is read back, and to what strays held for it, no more |
| `KnownHosts.OnlyNewKeyIff` | backend/internal/sftp/knownhosts.go:171-224 | exactly the new key is pinned if and only if no stray pins another and, where the spelling is not read back, a stray pins it |
| `KnownHosts.OtherSpellingSurvives` | backend/internal/sftp/knownhosts.go:208-216 | a key pinned under another spelling of the host survives the re-pin |
| `KnownHosts.RepinnedReads` | backend/internal/sftp/knownhosts.go:171-224 | a readable file stays readable if and only if the host's spelling is read back, and revokes the same keys |
| `KnownHosts.EmptiedListBreaks` | backend/internal/sftp/knownhosts.go:209-216 | a three-field line whose list is left with nothing but empty text makes the rewritten file unreadable |
| `KnownHosts.TrailingCommaBreaks` | backend/internal/sftp/knownhosts.go:209-216 | a host pinned by a list that ends in a comma is such a line of a readable file |
| `KnownHosts.RepinVerifiesIff` | backend/internal/sftp/knownhosts.go:287-297 | a confirmed key that is not revoked verifies after a re-pin if and only if the host's spelling is read back; otherwise the file is unreadable |
| `KnownHosts.AppendVerifiesIff` | backend/internal/sftp/knownhosts.go:151-160 | the same after a pin appended on a line of its own |
| `KnownHosts.BracketedAddressLocksOut` | backend/internal/sftp/knownhosts.go:151-160 | where an IPv6 address on port 22 is written in brackets and not read back, pinning it makes the file unreadable for every host and key |
| `KnownHosts.AppendGluesIff` | backend/internal/sftp/knownhosts.go:151-160 | a pin is appended on a line of its own if and only if the file is empty, ends in a newline, or its last line is blank |
| `KnownHosts.Pinned.Replace` | backend/internal/sftp/knownhosts.go:171-224 | the file becomes the rewritten one or stays untouched, and is never rewritten past a wildcard or a marker naming the host |
| `KnownHosts.Pinned.Callback` | backend/internal/sftp/knownhosts.go:49-109 | accepts only a key the file pins on return and does not revoke; changes the file only for a mismatched key whose fingerprint was confirmed, and then into the re-pinned file for a changed key that no rule refuses, or for a new one into the file with its line appended, or a beginning of it when the append broke off; a prompt says `changed` exactly when a key of the same algorithm is pinned; where the file can be read and written every verdict has its one outcome: a match is accepted and a revoked key halts with the file untouched, an unconfirmed mismatch prompts, a confirmed one is written unless a rule refuses, and then accepted if and only if the new file matches, for a host under its own spelling if and only if that is read back |
| `KnownHosts.VerdictIff` | backend/internal/sftp/knownhosts.go:49-70 | the model's verdict on a file: a key matches if and only if every line can be read, none revokes the key and some line pins it for the host by a list or a hash; it is revoked if and only if every line can be read and one revokes it |
| `KnownHosts.SameAlgorithm` | backend/internal/sftp/knownhosts.go:114-122 | keeps exactly the pinned keys of the offered key's algorithm |
| `Base64.RoundTrip` | backend/internal/transfer/token.go:22 | decoding what was encoded returns it, strictly or not |
| `Base64.StrictIsCanonical` | backend/internal/sso/token.go:91-95 | a strictly decodable text is the canonical one up to skipped line breaks |
| `Base64.GroupsAre` | backend/internal/transfer/token.go:22 | three bytes become the four digits of one number to the base 64, fewer are filled up with zero bits |
| `Base64.LenientIff` | backend/internal/transfer/token.go:33 | leniently exactly the texts decode that hold nothing but digits and line breaks and do not leave one digit over |
| `Base64.LenientIsNearlyCanonical` | backend/internal/transfer/token.go:33 | and what they decode to encodes as they read, but for excess bits of the last digit |
| `Decimal.ParseFormat` | backend/internal/transfer/token.go:23 | a formatted 64-bit number parses back to itself |
| `Decimal.ParsedIff` | backend/internal/transfer/token.go:50 | exactly those texts parse that are a sign or none, any number of zeros and a formatted number, within 64 bits |
| `DownloadToken.IssuedValidates` | backend/internal/transfer/token.go:21-63 | for every subject, path, 64-bit expiry and clock: the subject and path come back before expiry, `expired` after it, and a subject with a colon is always invalid |
| `DownloadToken.MessageInjective` | backend/internal/transfer/token.go:24 | distinct subject, path and expiry are signed as distinct messages |
| `DownloadToken.IssuedLayout` | backend/internal/transfer/token.go:21-27 | a token encodes subject, encoded path, expiry and the mac of these three, with a colon between them |
| `DownloadToken.AcceptedIffSigned` | backend/internal/transfer/token.go:31-63 | a token is accepted for a subject and a path if and only if it decodes to the subject, some encoding of the path, some stamp not yet passed and the mac of exactly these |
| `DownloadToken.AcceptedWasIssued` | backend/internal/transfer/token.go:31-63 | if only macs of issued messages are known, an accepted token returns a subject and path that were issued with an expiry not yet passed |
| `Paths.Compare` | backend/internal/transfer/paths.go:49-59 | the loop over the parts computes the comparison form |
| `Paths.OverlapIsPrefix` | backend/internal/transfer/paths.go:61-64 | on validated paths overlap holds exactly when the source's canonical segments begin the destination's |
| `Paths.OverlapIsAPreorder` | backend/internal/transfer/paths.go:61-64 | overlap is reflexive and transitive, for every lower-casing that meets the laws |
| `Paths.OverlapIgnoresSpelling` | backend/internal/transfer/paths.go:49-64 | two valid paths with the same non-empty parts, whatever their slashes and in windows mode their case, are judged alike against every third |
| `Paths.SpellingsCompareAlike` | backend/internal/transfer/paths.go:49-59 | for every string in windows mode, the other slash, a dot or a blank at the end of a part, and case make no difference |
| `Paths.RemotePathIff` | backend/internal/transfer/paths.go:10-36 | a path is valid if and only if it starts with one slash, has at most 65, no control character, no part of one or two dots, on Windows no backslash, drive or trailing dot or blank, and is not the root unless that is allowed |
| `Paths.ChildNameIff` | backend/internal/transfer/paths.go:38-47 | a name is valid if and only if it is not empty nor one or two dots and has no control character and no slash, on Windows neither a backslash nor a colon nor a trailing dot or blank |
| `Paths.ComparisonIdempotent` | backend/internal/transfer/paths.go:49-59 | for every string and every lower-casing that meets the laws, comparing a comparison form changes nothing |
| `Paths.CleanIdempotent` | backend/internal/transfer/paths.go:58 | cleaning a cleaned path changes nothing |
| `Paths.ClimbingCancels` | backend/internal/transfer/paths.go:58 | a climb takes the name before it along and stops at the root |
| `FreshNames.CandidatesDiffer` | backend/internal/api/upload_conflict.go:138-143 | candidates of different index differ, also when folded |
| `FreshNames.CandidateShape` | backend/internal/api/upload_conflict.go:133-143 | the number stands behind a non-empty stem and before the extension, which is the last dot and what follows it; a name with no dot but a leading one has none |
| `FreshNames.UniqueName` | backend/internal/api/upload_conflict.go:123-144 | returns the name if free, else the candidate of least free index, within one more attempt than there are taken names |
| `FreshNames.CheckDirectory` | backend/internal/api/upload_conflict.go:89-116 | a suggestion for exactly the requested names that exist, in order, each the candidate of least number that folds neither like an existing or requested name nor like an earlier suggestion; suggestions fold apart from each other |
| `FreshNames.AnswerMeans` | backend/internal/api/upload_conflict.go:89-116 | an answer names exactly the requested names the server takes for an existing one, the same or on Windows the same once lower-cased, and suggests none it takes for an existing, a requested or another suggested one |
| `FreshNames.RequestSegments` | backend/internal/api/upload_conflict.go:62-67 | a valid request path asks about its last segment in the directory of the others |
| `FreshNames.CheckRequests` | backend/internal/api/upload_conflict.go:73-117 | fails if and only if a requested directory cannot be listed, otherwise answers for each requested directory and no other |
| `FreshNames.UploadCheck` | backend/internal/api/upload_conflict.go:39-117 | a request is refused exactly when it has no path, more than 10000 or an invalid one; otherwise it fails or answers, directory by directory, for the whole paths asked about |

## Left out

- UploadLeases.NothingLeaks: an upload registered by a reservation that resumes after its session was evicted counts as listed, although nobody will close it.
- UploadProtocol.CommitReadsUndisturbed: the sweeper's age and name guards are not modelled, it is a step that may remove any stored bytes.
- StorageLedger.CountersFit: counters are unbounded integers everywhere else; this lemma and `RefreshFitsIff` are where their width is accounted for.
- ResourceBudget.Budget.Reserve: when the bucket inventory is due, and the answer it gives, are inputs; `ownUpload`'s set of upload names only filters that inventory.
- ChunkFiles.SequentialReader.Read: the object-store reader differs only in where its bodies come from and is not modelled separately.
- Slicing.Slices: the browser's ceiling of a floating-point quotient is taken as exact, which it is up to 100000 chunks.
- Paths.OverlapIgnoresSpelling: lower-casing works character by character; what Go does with bytes that are no valid UTF-8 is not modelled.
- CopyTree.CopyTreeDepth: when one path lies in the other, which the handler rules out in one direction only, it promises confinement and bounds but neither the merged result nor what is sent: what is copied then depends on what was copied before.
- CopyTree.CopyTree: the byte quota of the staged files is behind `steady`; running out of it is a failure like a full disk.
- RemoteTree.Remote.Upload: an upload is sent as a whole or cut short at some byte; progress during it is not modelled.
- RecursiveDelete.Delete: a path with a backslash, which the FTP adapter refuses before the call, is not a path here.
- RemoteTree.Remote.List: the adapters' limits of 100000 entries and 16 MiB to one listing are a failure of that listing like any other.
- RemoteTree.Remote.MakeDir: the tree has no symbolic links, and nobody else changes it during a call.
- KnownHosts.OthersKeepTheirPins: the re-pinning results ask that the re-pinned spellings can stand as one name on a line of their own, so not an empty host, one with a comma or a wildcard, or one that starts like a comment, a marker or a hash; and hashing is taken as injective for each salt.
- KnownHosts.RepinnedReads: for a file some line of which does not keep its meaning (`RewriteReadsIff`), only `EmptiedListBreaks` says what becomes of the whole file.
- KnownHosts.Pinned.Callback: lines are their fields, so spacing between fields is not kept; host certificates are not modelled.
- ZipPreflight.PreflightZip: reading the archive file does not fail, and its size is the one given.
- ArchiveExtraction.ExtractTar: the cap on the decompressed input stream, and the text of the skipped-entry reasons, are not modelled; a header that cannot be read is a failure of the archive (`intact`).
- FreshNames.UploadCheck: directories are grouped by their exact text, as in the code, so on a Windows server two spellings of one directory are answered apart.
- SsoReplay.OneSessionPerToken: token hashing is taken as injective.
- Admission.EveryRunIsWithinCapacity: session identifiers are fresh by assumption.
- Throttle.EveryRunIsThrottled: `Record`, `IsThrottled` and `Reset` serve another throttle and are not steps of these runs.
- HTTP routing, JSON binding, cookies, CSRF tokens, headers, logging, metrics, error texts and status tables: one-branch claims.
- Network dialing, TLS, deadlines and the FTP, SFTP and object-store client libraries: their calls are nondeterministic.
- AES-GCM, HKDF, HMAC and SHA: function parameters.
- Archive creation, downloads, renaming, permissions and the remaining handlers: they add only easy members.
- Configuration, themes, the user interface and every frontend store but the slicing loop.
