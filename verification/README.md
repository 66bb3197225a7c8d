# LocalSend for Kindle: the parts that must not lose data

This project models four parts of the LocalSend extension for Kindle and proves what they promise:
the transactional ZIP installer, the shim that repairs upload framing below the HTTP parser, the
receive-session protocol, and the bounded peer table. `dafny verify dfyconfig.toml` checks
everything.

## How the model is built

**Installer** (`FileTree`, `InstallNames`, `Preflight`, `InstallSteps`, `InstallJob`, `Installer`,
`Rollback`, `InstallSite`, `InstallRun`, `InstallOrder`, `InstallLaws`). A file system is a finite
map from component sequences to directories, files (bytes, mode, time) and special nodes, closed
under parents. The class `FileSystem` offers the system calls the installer makes. Each call may fail at
any time for a reason the tree does not explain; such failures are counted in `faults`, and those
whose error the program throws away also in `ignored`. A write may leave any part of its chunk
behind, copies run in chunks of any size, and every mutating call appends the new tree to
`history`, so a statement about `history` is a statement about every intermediate state
(`Recorded`: its last entry is the current tree).

- `Acceptable` says declaratively which archives preflight may accept; `Overlay` which final tree an
  install must reach; `Recoverable` that every file target is in its whole old or whole new state,
  that the old bytes of a replaced file are at its target or whole at its backup path, and that
  nothing else but needed directories has changed; `Whole` is the first part of it.
- `Honest`, `HonestTrace` and `Excused` collect, per outcome, what holds of the final tree, of all
  states, and of the reason. What a rollback or a cleanup leaves undone is counted: each target not
  back, each empty directory and each backup left behind costs a failed call of its own
  (`Unrestored`, `LeftEmpty`, `Leaves`), so neither gives up after a failure. The ghost `Account`
  says after how many states the cleanup or the rollback starts and holds the last of those states
  with its undo log; from there on a rollback only undoes (`UndoTrace`), step by step.
- Paths are compared through a canonicaliser `canon` that is no coarser than the lower-casing used
  by the duplicate check. The identity gives a case-sensitive tree, a folding a FAT-like one; every
  theorem covers both. The lower-casing keeps a leading dot.
- `InstallLaws` says what the definitions amount to for archives, names and trees alone, with all
  names, limits and modes written out: which archives are accepted, what an install leaves at each
  place, and which paths no run touches.

Hypotheses, which `SmallInstall` shows can be met: nobody else writes to the tree; the installation
root exists; the transaction name is fresh; the temporary names of both phases are not in the
initial tree, not on the way to an archive target, and not the scratch directory (`FreshNames`);
file sizes and free space are 64-bit.
"Restored" leaves out the scratch directory `.localsend-install-backup`, which is removed when empty.

**Upload framing** (`HttpText`, `FramingHeaders`, `HeaderNormalForm`, `BodyClassify`,
`ChunkedCoding`, `UploadCompat`, `UploadEndToEnd`, `UploadRepair`). The network is a byte stream
handed out in pieces of any size, possibly together with an error. `ChunkedCoding` states what a recipient makes
of a message by sections 3.3.3 and 4.1 of RFC 7230, apart from the shim's code; it shares with the
model of the shim only how a field line and a hexadecimal number are read (`FieldName`,
`FieldValue`, `HexPart`, `ParseHex`). `route` stands for parsing the request line and looking up the
session. The one hypothesis of the end-to-end theorems is that the head has no bare line feed.
`UploadRepair` says which requests are repaired in terms of the request's own lines.

**Receive sessions** (`SessionSteps`, `SessionLaws`, `UploadPlaces`, `UploadServer`). Each region
under the server's lock is one step; a `Run` is any interleaving of such steps by any number of
requests, with marks at any time, and an `UploadRun` one in which each mark ends an upload of its own
that passed the gate earlier. Random identifiers are fresh. `SessionLaws` says what senders can rely
on in terms of the requests and replies of a run, without looking at the stored session. The file
contents theorem (`Follows`, `ReceivedFilesStay`) is about uploads one after another, because
interleaved uploads to the same destination share a temporary file. Files are received into the same kind of tree the installer works on, through the same system
calls, with names folded character by character (`Folding`: the identity, or a FAT-like folding
that keeps the dot apart and tells "t" from ")" and "d"). `Answer` says how an upload is answered
when no call fails from outside.

**Peer table** (`PeerTable`). The clock strictly increases; each write may or may not reach the
disk, and `synced` tells whether the latest one did.

## Results that are negative

- Read splits can change the framing chosen, for exactly one family of bodies: `SplitIndependence`
  with `Torn`, a condition on the first 65 bytes; `TornExample` is a member.
- A raw upload is read as its payload if and only if the head has no Transfer-Encoding field, and the
  client waits for 100-continue or the bytes seen were recognised as raw (`RawUpload`,
  `RawRecognised`). It is misread when it starts like a chunk-size line (`LookalikeMisread`), when
  nothing of it arrives in time (`SlowMisread`), and after a Transfer-Encoding field with an empty
  value, which the shim overlooks (`EmptyFieldMisread`).
- A chunked upload is, without a timeout, taken for chunked if and only if its first size line, with
  its extension, has at most 63 characters and none but hex digits and semicolons, or exactly the
  first 64 bytes of a torn body were seen (`ChunkedInTime`). `LongSizeMisread` and
  `ExtensionMisread` are legal uploads that are misread.
- Rewriting as chunked leaves exactly one Transfer-Encoding line if and only if there was none before
  (`ChunkedNormalForm`); `TwoTransferEncodings` is a candidate head that ends with two.
- The recorded place of a received file moves if and only if a second upload of it passed the gate
  before the first was marked and is marked with another destination (`SavedAsMoves`);
  `SavedAsCanChange` is such a run.
- A peers file that agreed with memory agrees after a sighting if and only if nothing changed or the
  write got through (`SavePeer`); an unchanged sighting repairs nothing unless it writes, which it
  does after five minutes. `StaleDisk` is a case in which they differ.
- An accepted upload disturbs at most the accepted file at the place chosen for it, which is in use
  only when every candidate was reported in use and the last resort exists (`HandleUpload`, with the
  exact condition for nothing being lost); `NoNameLeft` is an upload that replaces an accepted file.
- A run makes a directory where the settings file would be if and only if there is no settings file and
  the archive has an entry below that path (`SettingsDirectory`); `SettingsBecomeDirectory` is such an
  archive. A settings file that is there is left alone always (`SettingsUntouched`).
- The archive's own file is replaced by a completed install if and only if the archive has a file that
  the file system takes for the same name (`SourceUntouched`, `InstalledFile`). That cannot happen where
  all names are told apart (`SourceSpared`); `SourceOverwritten` is an accepted archive on a file system
  that folds case.
- An upload is refused although nothing outside fails if and only if something other than a directory
  is above its place, or something other than a file where its temporary file would go
  (`RefusedPlaces`); `SavedFileBlocks` is such a case. A directory at its place sends it beside
  (`FolderIsSkipped`).

## Model

| member | source | states |
|---|---|---|
| InstallNames.NormalizeInstallName | internal/app/installer.go:175-192 | the loop over name components computes the normal form of a name, or refuses the name, for every string; `RefusedNames` says which names that refuses |
| InstallNames.RefusedNames | internal/app/installer.go:166-192 | a name is refused if and only if it is empty or absolute, holds a NUL or a backslash, has a piece `..`, or leads, in any case of letters, to one of the protected directories or to `settings.json`, all written out; any other name stands for its pieces other than empty ones and `.` |
| InstallNames.NamePieces | internal/app/installer.go:182 | every name is made of pieces with slashes between them, so `RefusedNames` is about every string |
| InstallNames.AcceptedNameStaysInside | internal/app/installer.go:175-192 | an accepted name has only genuine components: none is empty, `.` or `..`, none holds a slash, backslash or NUL |
| InstallNames.NormalNameRoundTrip | internal/app/installer.go:182-191 | the slash form of an accepted path is accepted again, as the same path |
| Preflight.SafeExistingParents | internal/app/installer.go:194-207 | walking down from the root finds out whether every existing ancestor of a target is a directory, outside failures apart |
| Preflight.CheckTarget | internal/app/installer.go:233-240 | a target passes if and only if it is not the archive itself, its ancestors are directories, and what stands there is of the same type, outside failures apart; the size to back up is exact |
| Preflight.CheckNesting | internal/app/installer.go:252-258 | true if and only if no file of the archive is a folded ancestor of another entry |
| Preflight.AdmittedMeans | internal/app/installer.go:220-250 | checking entries one by one in archive order accepts exactly the archives that satisfy the order-free conditions |
| Preflight.PreflightInstallZIP | internal/app/installer.go:209-260 | accepts if and only if the archive is acceptable, outside failures apart; the plan holds the installable entries, the true sum of sizes and the largest replaced file; nothing is written; `AcceptedExactly` says which archives that accepts |
| InstallLaws.AcceptedExactly | internal/app/installer.go:209-260 | an archive is accepted if and only if it has 1 to 20000 entries, every name is accepted and one names something, every entry is no symbolic link, a directory or a regular file of 63-bit size, not the archive itself, below directories only and over nothing of another type, no two names are the same but for case, no file is above another entry, and the sizes sum to a 63-bit number |
| InstallLaws.InstalledFile | internal/app/installer.go:244-310 | a completed install has put every file of the archive in its place: the whole undamaged payload, of the size claimed, with the archive's mode or 0644 when it has none |
| InstallLaws.InstalledDirectory | internal/app/installer.go:350-353 | every directory of the archive stands, and every directory above an entry |
| InstallLaws.BytesReported | internal/app/installer.go:246-344 | the bytes reported are the sum of the sizes of the archive's files |
| InstallLaws.ScratchSpelled | internal/app/installer.go:296-340 | the names of the transaction directory and of both kinds of temporary files |
| InstallLaws.PrivateUntouched | internal/app/installer.go:166-173 | no run of any outcome changes anything at or below `extensions/localsend/state` or `extensions/localsend/logs`, or below the stage directory, in any of its states, however the paths are spelled |
| InstallLaws.SettingsUntouched | internal/app/installer.go:172 | no run of any outcome changes a settings file; where there is none, it makes at most a directory, and only for an archive with an entry below |
| InstallLaws.SettingsDirectory | internal/app/installer.go:172 | a completed install leaves a directory in place of a missing settings file if and only if the archive has an entry below that path |
| InstallLaws.SettingsBecomeDirectory | internal/app/installer.go:172 | such an archive, accepted for an empty root |
| InstallLaws.SourceUntouched | internal/app/installer.go:233 | the archive's own file is left alone in every state of every run, unless the archive holds a file that the file system takes for the same |
| InstallLaws.SourceSpared | internal/app/installer.go:233 | where the file system tells all names apart, it is left alone always |
| InstallLaws.SourceOverwritten | internal/app/installer.go:233 | an accepted archive, on a file system that folds case, whose completed install replaces the archive's own file |
| InstallSteps.EnsureDirs | internal/app/installer.go:262-279 | the directories recorded are exactly those added, parents first, all on the way to the path; it fails only by an outside failure or an obstructing non-directory |
| InstallSteps.MkdirAll | internal/app/installer.go:283 | adds only directories on the way to the path, in every state; fails only by an outside failure or an obstructing non-directory |
| InstallSteps.CopyExact | internal/app/installer.go:281-292 | never over an existing file; on success the destination holds exactly the source; in every state at most a prefix at the destination and new parents differ |
| InstallSteps.WriteEntryAtomic | internal/app/installer.go:294-310 | in every state the target is untouched or holds the whole contents; on success it has contents and mode; it fails only by an outside failure or a bad payload |
| InstallSteps.Commit | internal/app/installer.go:303-308 | the target changes in one step, from its old state to the whole new contents; failure leaves only the temporary file |
| InstallSteps.RemoveAll | internal/app/installer.go:326 | deletes nothing outside the given path; success means nothing below it is left; each node left with nothing below it costs a failed call of its own |
| InstallJob.LedgerRecoverable | internal/app/installer.go:350-363 | an undo log that accounts for every change implies that no original is lost and no target is partial |
| InstallJob.TargetUntouched | internal/app/installer.go:354-360 | before its turn an entry's target is as it was at the start, so "target changed after preflight" cannot happen |
| InstallJob.WayIsClear | internal/app/installer.go:353 | during the run no ancestor of an entry has become anything but a directory |
| InstallJob.BackupIsClear | internal/app/installer.go:357-358 | the backup path of the next file is free and no earlier backup stands in its way |
| InstallSite.JobSound | internal/app/installer.go:209-260 | what preflight accepts has pairwise distinct, non-nested targets outside the scratch directory, on case-sensitive and case-folding file systems |
| InstallSite.SpaceTestExact | internal/app/installer.go:336-337 | for all non-negative 64-bit inputs the wrapped test accepts if and only if the true sum fits the free space |
| Installer.BackUpTarget | internal/app/installer.go:354-360 | an existing target is backed up whole before anything else happens to it, at the cost of exactly its size; it fails only by an outside failure |
| Installer.WriteTarget | internal/app/installer.go:361-362 | the file is recorded if and only if it was installed, and the undo log stays truthful either way |
| Installer.InstallFile | internal/app/installer.go:351-363 | one round keeps the undo log truthful, grows the tree by exactly the entry's size, and stays within its space in every state |
| InstallRun.InstallDirs | internal/app/installer.go:350 | every directory entry stands afterwards; every directory added is recorded for the rollback |
| InstallRun.InstallFiles | internal/app/installer.go:351-363 | the files installed are the archive's, each recorded once; every state is recoverable and within the peak bound; it stops only for an outside failure or a bad payload |
| InstallRun.ForwardOverlay | internal/app/installer.go:350-363 | after the last file the tree is exactly the overlay of the archive on the initial tree |
| InstallRun.CleanUp | internal/app/installer.go:365-366 | removing the backups keeps the overlay in every state; no backup is left, and no scratch directory unless something else is in it, when no cleanup call fails; otherwise at most as many as calls failed |
| InstallRun.InstallZIPToRoot | internal/app/installer.go:331-369 | success is exactly an overlay with matching counters; a reported rollback has restored every target, and the whole tree when no ignored call failed; an incomplete rollback keeps all backups, happens only when a call fails in it, and leaves at most as many targets unrestored as calls have failed; every state is recoverable until the install has succeeded; all states before the cleanup or rollback stay within the peak bound, and from there on a rollback only restores targets and removes what was made; an acceptable, affordable archive with good payloads completes when nothing outside fails |
| InstallRun.EveryStateWhole | internal/app/installer.go:281-329 | per-file atomicity and no lost original, for each file, each state and every pattern of failures |
| InstallRun.BackupsOutliveFailure | internal/app/installer.go:325-326 | an incomplete rollback keeps the backup of every file it had to restore, in all its states |
| InstallRun.ReserveKept | internal/app/installer.go:334-337 | once the space test has passed, free space stays at or above 32 MiB less one byte in every state before the cleanup or the rollback starts |
| Rollback.RestoreFile | internal/app/installer.go:316-321 | success puts the original bytes back; failure leaves the target and the backup as they were |
| Rollback.RemoveInstalled | internal/app/installer.go:322 | a file that was not there before is gone on success, and untouched on failure |
| Rollback.UndoAll | internal/app/installer.go:313-323 | undoes all records in reverse, going on past failures: the targets not back at the end are at most as many as calls have failed; success means every recorded target is back |
| Rollback.EmptyWhenReached | internal/app/installer.go:324 | a created directory is empty when its turn comes in reverse order, so its removal succeeds |
| Rollback.SweepDirs | internal/app/installer.go:324 | removes exactly the created directories when no call fails and disturbs nothing otherwise; the empty directories left are at most as many as calls have failed |
| Rollback.RemoveScratch | internal/app/installer.go:326 | removing the backups touches nothing outside scratch space and keeps every restored target |
| Rollback.RollbackInstall | internal/app/installer.go:312-329 | inverts any partial install: success means every target is back; with no ignored failure the whole tree equals the initial one; failure keeps every backup, and at most as many targets are not back as calls have failed |
| Rollback.UndoneStays | internal/app/installer.go:313-326 | during a rollback a target once restored stays restored |
| Rollback.NothingAdded | internal/app/installer.go:313-326 | during a rollback nothing outside the targets is added or altered but its own temporary files |
| InstallOrder.PreflightOrder | internal/app/installer.go:217-260 | acceptance, the total and the largest replaced file are the same for every permutation of the entries |
| InstallOrder.OrderIndependence | internal/app/installer.go:350-368 | for every permutation the counters and the possible final trees are the same |
| InstallOrder.OverlayUnique | internal/app/installer.go:350-363 | outside scratch space the final tree's paths, types, contents and file modes are determined |
| InstallOrder.CountsMean | internal/app/installer.go:344-362 | the counters are the numbers of directories named, files written and files replaced |
| InstallOrder.CreatedMean | internal/app/installer.go:360 | the counter of created files is the number of file targets not there before |
| InstallRun.FilesAddUp | internal/app/installer.go:359-362 | files counted are files replaced plus files created |
| HttpText.JoinLines | internal/app/upload_compat.go:273 | splitting a head at CRLF and joining gives it back |
| HttpText.LinesJoin | internal/app/upload_compat.go:290 | joining lines without line feeds and splitting gives them back |
| HttpText.HeadIsBlock | internal/app/upload_compat.go:82-84 | a head cut at its first end mark, without bare line feeds, is a block of lines with no empty line but possibly the first |
| HttpText.RenderEnd | internal/app/upload_compat.go:290 | the end mark of a rendered block comes only at its very end |
| FramingHeaders.HeaderValue | internal/app/upload_compat.go:220-242 | returns the value of the first field of that name before an empty line, within what the line scanner accepts |
| FramingHeaders.ScannedBlock | internal/app/upload_compat.go:222-232 | the scanner reads a rendered block line by line |
| FramingHeaders.LongLineStops | internal/app/upload_compat.go:222-224 | nothing from the first line on that is longer, with its end, than 65536 bytes is looked at |
| FramingHeaders.FieldLine | internal/app/upload_compat.go:233-239 | a field line is cut at its first colon; the name counts without outer blanks and case, the value without outer blanks |
| FramingHeaders.TrimExactly | internal/app/upload_compat.go:237-238 | trimming takes the blanks, and nothing else, from both ends |
| FramingHeaders.LowerLetters | internal/app/upload_compat.go:221 | capital letters, and no other characters, are made small |
| FramingHeaders.RewriteLines | internal/app/upload_compat.go:273-289 | the first field of that name is replaced in place, further ones dropped, every other line kept in order; an absent field is appended; an empty value drops all |
| FramingHeaders.RewriteFramingHeader | internal/app/upload_compat.go:263-291 | the head becomes the rendering of the rewritten lines; a head without end mark is left alone |
| HeaderNormalForm.RewriteNormalForm | internal/app/upload_compat.go:244-246 | exactly one field of that name, other lines unchanged, value read back, end mark only at the end, rewriting again changes nothing |
| HeaderNormalForm.ChunkedNormalForm | internal/app/upload_compat.go:248-261 | no Content-Length line left, the new line inside the head, exactly one Transfer-Encoding line if and only if there was none, other lines unchanged |
| BodyClassify.ClassifyCompatBody | internal/app/upload_compat.go:295-335 | chunked if and only if the prefix starts with a size line of fewer than 64 characters and a 64-bit size; unknown if and only if it could still become one; raw otherwise |
| BodyClassify.HexPartPlain | internal/app/upload_compat.go:312-319 | what is parsed as the size holds only hex digits, so trimming it has no effect and parsing fails only on nothing or on overflow |
| BodyClassify.VerdictStable | internal/app/upload_compat.go:107-126 | once a verdict is reached no further bytes change it |
| BodyClassify.SplitIndependence | internal/app/upload_compat.go:107-126 | all read splits of a body choose the same framing if and only if the body does not carry, after 63 bytes of a would-be size line, a carriage return that fails to end it |
| BodyClassify.TornExample | internal/app/upload_compat.go:303-308 | such a body exists |
| BodyClassify.SettledWhere | internal/app/upload_compat.go:107-132 | without a timeout the framing chosen is that of the whole body, except on the first 64 bytes of such a torn body |
| BodyClassify.SizeLineMode | internal/app/upload_compat.go:107-132 | what has been seen of an extension-free size line is taken for chunked if and only if the line has at most 63 digits or fewer than 64 bytes were seen; every short prefix is unknown, never raw |
| BodyClassify.HexRoundTrip | internal/app/upload_compat.go:319 | a hexadecimal numeral in digits of either case is read as its number if and only if that has at most 64 bits |
| BodyClassify.RawStart | internal/app/upload_compat.go:324-329 | a body with any other character among its first 64, after hex digits and semicolons only, is raw from whatever part of it reaches that far |
| ChunkedCoding.ChunkedRoundTrip | internal/app/upload_compat.go:293-335 | decoding a chunked body gives its payload and stops where the body ends |
| Decimals.DecimalRoundTrip | internal/app/upload_compat.go:244-246 | the decimal numeral written into Content-Length reads back as the number |
| Decimals.DecimalSpelled | internal/app/upload_compat.go:245 | the digits and their order |
| UploadCompat.UploadCompatConn.Init | internal/app/upload_compat.go:58-142 | the head is found, the repair is chosen by the bytes seen, and the buffer plus the wire are the repaired head and the rest of the stream; it gives up only when a read failed or the first 64 KiB hold no head, and time is up only when a read timed out; `RepairedExactly` says what the repair is |
| UploadCompat.UploadCompatConn.Read | internal/app/upload_compat.go:45-56 | for any read sizes and any segmentation, what is delivered, held and still on the wire is the repaired head followed by exactly the bytes after the head; a failed start delivers nothing and stays failed |
| UploadCompat.UploadCompatConn.ReadHead | internal/app/upload_compat.go:58-84 | the head ends at the first end mark of the stream, no byte read is lost, what is buffered stays below 68 KiB, a head is called too large only when the first 64 KiB hold no end mark, and any other error is one of a read |
| UploadCompat.UploadCompatConn.ReadPrefix | internal/app/upload_compat.go:107-126 | stops with a verdict, 64 bytes or a read that timed out, fails only when a read failed otherwise, and no byte read is lost |
| UploadRepair.HeaderFieldMeans | internal/app/upload_compat.go:220-242 | the header scan finds the first field of a name among the lines it gets to see |
| UploadRepair.CandidateExactly | internal/app/upload_compat.go:155-203 | a request is a candidate if and only if it is a POST whose first Content-Length is absent, empty or 0, whose first Transfer-Encoding is absent or empty, and whose file's size the route knows |
| UploadRepair.RepairedExactly | internal/app/upload_compat.go:86-142 | exactly those requests are changed; a repaired one is framed by chunks if and only if the client does not wait for 100-continue and the bytes seen were taken for chunks, else by the file's size unless a Transfer-Encoding field decides; any other is sent on as it came |
| UploadRepair.FixedLengthUntouched | internal/app/upload_compat.go:170-178 | a request whose first Content-Length is neither empty nor 0, and whose lines are not too long to be scanned, passes byte for byte |
| UploadEndToEnd.DeliveredPrefix | internal/app/upload_compat.go:45-56 | the bytes delivered so far are always the beginning of the repaired stream |
| UploadEndToEnd.PassThrough | internal/app/upload_compat.go:86-90 | a request that is no candidate passes byte for byte |
| UploadEndToEnd.LengthFraming | internal/app/upload_compat.go:136 | by section 3.3.3 of RFC 7230 a recipient takes exactly the declared number of bytes, unless a Transfer-Encoding field was there, which then decides as before |
| UploadEndToEnd.ChunkFraming | internal/app/upload_compat.go:134 | such a recipient decodes chunks, whatever Transfer-Encoding fields the head had before |
| UploadEndToEnd.CandidateHead | internal/app/upload_compat.go:155-178 | a candidate's head starts with a POST line, and its first Transfer-Encoding field is empty or absent when no line is too long for the scanner |
| UploadEndToEnd.SentFraming | internal/app/upload_compat.go:99-141 | how a recipient frames the message sent on, for every candidate |
| UploadEndToEnd.ChunkedUpload | internal/app/upload_compat.go:99-141 | a chunked upload is read as exactly its payload if and only if the client does not wait for 100-continue and the bytes seen were taken for chunks, or the head says chunked on its own |
| UploadEndToEnd.FirstLineMode | internal/app/upload_compat.go:295-335 | what has been seen of a chunked body is taken for chunks if and only if its first line is short and plain, or the bytes seen leave the matter open |
| UploadEndToEnd.ChunkedInTime | internal/app/upload_compat.go:107-132 | for every chunked body the bytes seen are taken for chunks if and only if the first size line with its extension has at most 63 characters, all hex digits or semicolons, or time ran out on bytes that leave the matter open, or exactly the first 64 bytes of a torn body were seen |
| UploadEndToEnd.ExtensionMisread | internal/app/upload_compat.go:324-328 | a legal chunked upload with the extension `a=b` is misread without any timeout |
| UploadEndToEnd.LongSizeMisread | internal/app/upload_compat.go:331-332 | a legal chunked upload with a longer size line is misread without any timeout |
| UploadEndToEnd.RawUpload | internal/app/upload_compat.go:99-141 | a raw upload of the declared size is read as exactly that payload if and only if the head has no Transfer-Encoding field, and the client waits for 100-continue or the bytes seen were recognised as raw |
| UploadEndToEnd.RawRecognised | internal/app/upload_compat.go:107-126 | without a timeout the bytes seen are recognised as raw if and only if the whole body classifies as raw and not just the first 64 bytes of a torn one were seen |
| UploadEndToEnd.LookalikeMisread | internal/app/upload_compat.go:319-320 | a raw upload that starts like a size line is misread without any timeout |
| UploadEndToEnd.SlowMisread | internal/app/upload_compat.go:127-132 | a raw upload of which nothing arrives in time is misread |
| UploadEndToEnd.EmptyFieldMisread | internal/app/upload_compat.go:175-176 | a raw upload after an empty Transfer-Encoding field is misread whatever is seen of it |
| UploadEndToEnd.TwoTransferEncodings | internal/app/upload_compat.go:248-261 | a candidate head whose rewriting as chunked ends with two Transfer-Encoding lines |
| UploadEndToEnd.ChunkedConnection | internal/app/upload_compat.go:45-142 | the chunked theorem for a connection in any state of being read |
| UploadEndToEnd.RawConnection | internal/app/upload_compat.go:45-142 | the raw theorem for a connection in any state of being read |
| SessionSteps.StepSafety | internal/app/server.go:353-413 | a step lets the session grow or replaces it by one with a new identifier, the latter only if it was cancelled, complete or at least thirty minutes old |
| SessionSteps.SessionSafety | internal/app/server.go:505-527 | over any interleaving tokens and metadata never change, received files stay received, a cancelled session stays cancelled, and an identifier once given up never comes back |
| SessionSteps.NoPassAfterCancel | internal/app/server.go:428-451 | no upload passes the gate of a session after it was cancelled |
| SessionSteps.LateMarkHarmless | internal/app/server.go:505-512 | a mark or cancel with the identifier of a replaced session changes nothing |
| SessionSteps.LiveRun | internal/app/server.go:354-377 | a session that is live all the time is not replaced by any run of steps |
| SessionSteps.ReplayIdempotent | internal/app/server.go:362-373 | repeating the creating request, with any uploads in between, returns the same identifier and tokens and changes nothing |
| SessionSteps.NoPassOnceReceived | internal/app/server.go:445-449 | over any interleaving no upload passes the gate of a received file |
| SessionSteps.SavedAsMoves | internal/app/server.go:428-512 | over any run the place of a received file ever differs from where its first upload put it if and only if a second upload of it passed the gate before the first was marked and is marked with another destination |
| SessionSteps.SavedAsCanChange | internal/app/server.go:379-512 | a run from the empty server, with an accepted prepare, in which that happens |
| SessionLaws.SessionTold | internal/app/server.go:353-530 | over any run the session in force is the one last opened, with the identifier and tokens of the reply and the files of the request, cancelled if and only if cancelled since, each file received if and only if marked since |
| SessionLaws.GateTold | internal/app/server.go:428-451 | over any run an upload passes the gate if and only if it comes from the address of the sender of the session last opened, with the identifier and the file's token of the reply, and the session is not cancelled and the file not received since; with the same credentials it is told the file is there once it is received; otherwise it is refused |
| SessionLaws.NobodyYet | internal/app/server.go:354-433 | before a session is opened no upload passes and no request to send is held |
| SessionLaws.PlaceTold | internal/app/server.go:505-512 | a received file is recorded where the last upload of it put it |
| SessionLaws.PrepareTold | internal/app/server.go:294-410 | over any run a request to send is held if and only if a file of the session last opened is still to come, nobody has cancelled it and it is less than thirty minutes old, up to the moments at which the clock is read; held, it gets the old identifier and tokens if and only if it has the same address and fingerprint and asks for the same files, name, size, type and digest; not held, it is accepted only if all its files are proper and bad only if one is not |
| SessionLaws.SenderFreed | internal/app/server.go:354-382 | after a cancel, or once every file is received, the next proper request to send is accepted, from anyone, unless there is no randomness |
| SessionLaws.CancelTold | internal/app/server.go:518-530 | after a cancel of a session once handed out no upload to it passes the gate any more |
| SessionLaws.CredentialsFresh | internal/app/server.go:380-402 | identifiers and tokens are new each time, and no two files of a session share a token |
| UploadServer.SamePrepareFiles | internal/app/server.go:294-312 | true if and only if key sets and compared fields agree |
| UploadServer.SessionTokens | internal/app/server.go:314-322 | returns every file's token under its identifier |
| UploadServer.Server.BuildFiles | internal/app/server.go:386-407 | all files or none: a bad file, and only that, is a bad request; tokens are new and pairwise distinct |
| UploadServer.Server.HandlePrepare | internal/app/server.go:353-413 | is one step of the session machine, loses, moves and alters no accepted file, and reports an internal error only when there is no randomness |
| UploadServer.Server.EnterUpload | internal/app/server.go:428-451 | is the gate of the session machine, and leaves the session as it is; `GateTold` says over a run who passes |
| UploadServer.Server.FinishUpload | internal/app/server.go:505-512 | is one step of the session machine: marks the file of the named session and nothing else |
| UploadServer.Server.HandleCancel | internal/app/server.go:518-530 | is the cancel step of the session machine, which `CancelTold` and `SenderFreed` describe over a run, and loses, moves and alters no accepted file |
| UploadServer.UniquePath | internal/app/util.go:104-118 | returns the first candidate at which there is no node of any kind; one in use only as the last resort; each unused candidate passed over costs a failed lookup of its own |
| UploadPlaces.NamesTried | internal/app/util.go:108-117 | the candidates for `a.jpg` are `a.jpg`, `a (1).jpg` and so on, the last resort is `a-received.jpg`, the temporary file `a.jpg.localsend-part` |
| UploadPlaces.PlainNamesTried | internal/app/util.go:108-117 | the same for a name without an extension |
| UploadPlaces.FreePlaceFirst | internal/app/util.go:104-118 | the place chosen is the first unused one of 10000 candidates, the place asked for being the first, and the last resort when there is none |
| UploadPlaces.FreePlaceUnused | internal/app/util.go:104-118 | the place chosen is unused if and only if one of the ten thousand candidates or the last resort is |
| UploadPlaces.FoldedTemp | internal/app/server.go:463 | a name folds to one with the temporary suffix if and only if its extension folds to the suffix |
| UploadPlaces.NamesPlain | internal/app/util.go:108-117 | no candidate folds to the name of a temporary file unless the requested name does |
| UploadServer.RefusedPlaces | internal/app/server.go:458-468 | when nothing outside fails a place is refused if and only if something other than a directory is above it or something other than a file is where the temporary file would go |
| UploadServer.SavedExactly | internal/app/server.go:416-516 | when nothing outside fails an upload is saved if and only if the gate lets it pass, its name resolves, only directories are above its place, the place chosen and the temporary name are not blocked, and the body has the declared length and, where digests are verified and one is declared, that digest |
| UploadServer.ReasonExactly | internal/app/server.go:428-499 | the reason given for not saving is the true one |
| UploadServer.SavedFileBlocks | internal/app/server.go:458-461 | with `a` saved, an upload to `a/b` is refused |
| UploadServer.FolderIsSkipped | internal/app/util.go:105-117 | an upload to the place of a directory goes elsewhere |
| UploadServer.NoNameLeft | internal/app/util.go:111-117 | a tree and a ledger in which an upload is accepted and replaces an accepted file |
| UploadServer.Server.Deliver | internal/app/server.go:463-503 | in every state nothing old is touched but the temporary file, nothing is added but it and directories, and the destination changes only to the whole body; afterwards the temporary file is gone unless its removal failed; outside failures apart the answer is determined by what is at both places, length and digest |
| UploadServer.Server.Finalize | internal/app/server.go:499-503 | the rename puts the whole body in place at once or changes nothing; outside failures apart it fails only over a directory |
| UploadServer.Server.Receive | internal/app/server.go:453-503 | the same from making the directories on; the destination is one in use only as the last resort; outside failures apart answer and destination are determined by tree, place, length and digest |
| UploadServer.Server.HandleUpload | internal/app/server.go:416-516 | in every state nothing old is touched but the temporary file and the destination, and all accepted files are intact, or all with the new body in place; an accepted body is at its place and recorded as received, otherwise neither session nor accepted files change; an upload stopped at the gate touches no file, and no temporary file is left unless its removal failed; every received file keeps a place of its own if and only if no other one was saved at the chosen place, and nothing accepted is lost if and only if besides none was there or one with the same bytes; outside failures apart the answer is determined by gate, tree, place, length and digest |
| UploadServer.Server.RecordUpload | internal/app/server.go:505-512 | marking accounts for the body; every received file keeps a place of its own, and nothing accepted is lost, under the exact conditions |
| UploadServer.MarkedBacked | internal/app/server.go:505-512 | marking an upload keeps every received file accounted for if and only if no other one was saved at the same place |
| UploadServer.ReceivedFilesStay | internal/app/server.go:416-530 | over any run of calls a file once received is at its place with the very bytes accepted; no later call moves it, alters it or puts another one there |
| PeerTable.LoadedLists | internal/app/state.go:24-30 | loading a file the store wrote gives the table it was written from |
| PeerTable.LoadedExactly | internal/app/state.go:24-30 | of all entries with a name that are filed under the same upper-case name, the last is the one loaded |
| PeerTable.EqualFoldMeans | internal/app/state.go:39-60 | fingerprints agree if and only if they differ at most in the case of letters |
| PeerTable.SortedLists | internal/app/state.go:67-71 | the listing holds each peer once, most recently seen first |
| PeerTable.StateStore.constructor | internal/app/state.go:21-37 | a start from a file the store itself wrote is a valid state that agrees with the disk |
| PeerTable.StateStore.Truncate | internal/app/state.go:67-79 | keeps exactly the `max` most recently seen peers when there are more |
| PeerTable.StateStore.WriteBack | internal/app/state.go:80-83 | after a change the file is written at once, otherwise only when the last write is five minutes old |
| PeerTable.StateStore.SavePeer | internal/app/state.go:56-85 | the table holds the most recently seen peers, at most `max`, with the one just seen; after a successful write the file agrees with it up to the last sightings, and a file that agreed before agrees afterwards if and only if nothing changed or the write got through; the last write is less than five minutes old; an unchanged peer costs no write before that |
| PeerTable.StaleDisk | internal/app/state.go:46-51 | a sighting after which file and table differ because the write did not get through |
| PeerTable.Reload | internal/app/state.go:21-37 | reloading a file that agrees with the table rebuilds the same table up to the last sightings |
| PeerTable.Restart | internal/app/state.go:21-51 | after any run whose last write got through, a restart finds the same peers |

## Left out

- InstallRun.InstallZIPToRoot: modes and times of directories (internal/app/installer.go:364) are not modelled; file modes are the permission bits, and a file's time is only promised by `WriteEntryAtomic`, because setting it is best effort.
- InstallRun.InstallZIPToRoot: the partly filled counters returned with an error are not modelled.
- Rollback.RollbackInstall: no space bound is claimed, because the backups are kept until the end of the rollback.
- UploadServer.Server.HandleUpload: contents are promised for uploads one after another, not interleaved; no requested name may fold to one with the temporary suffix; symbolic links in the receive directory count as nodes in use and are not followed.
- UploadServer.Server.Receive: promises nothing for an accepted file at the chosen place, because the code overwrites it when all candidates are reported in use.
- UploadServer.Server.HandlePrepare: the checks before the lock (method, PIN, automatic acceptance, JSON, empty file list, TLS fingerprint) are not modelled; neither are the status events.
- InstallLaws.PrivateUntouched: of the stage directory only what lies below it, because an abstract lower-casing may give a temporary file that directory's name.
- InstallNames.NormalizeInstallName: folding is an abstract function; Unicode case tables are not modelled.
- FramingHeaders.HeaderValue: blanks and letters are ASCII; bytes above 127 are left as they are.
- PeerTable.StateStore.SavePeer: fingerprints fold as ASCII; status.json holds only the peer count.
- ZIP decoding and CRC: an entry is a name, kind, permissions, declared size, time, and what reading it yields.
- Block rounding, directory metadata, fsync order and power loss: intermediate states are program states.
- Install lock, daemon lock, candidate selection, pending-install file and SHA-256 of the archive: the model starts from one running installer.
- Setuid bits and umask; hard links; symbolic links beyond being special nodes.
- url.ParseRequestURI and the protocol-version comparison: part of the abstract `route`.
- safeRelativePath and pathWithin: abstract functions from a declared name to acceptance and to an absolute path below the root; the receive directory itself as destination and a receive directory at the root are not modelled.
- TLS, HTTP server, discovery, firewall, sending, self-test, menus and log rotation: plumbing with only easy claims.
