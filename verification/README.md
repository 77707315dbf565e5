# Verified model of the device update server's core logic

The server hands out over-the-air updates to devices. Its hard logic sits in a few small protocols and codecs over files,
table rows and bytes. Each module here models one of them and proves what the rest of the server relies on.

| module | models |
|---|---|
| `TextLines` | splitting, joining, reading a file line by line, hexadecimal digits |
| `RolloutStore` | the rollout journal, its part file, the rollout files and the device rows, as a class over journal text |
| `RolloutSteps`, `RolloutProtocol` | PUT handlers, their commit goroutines, the watchdog and crashes, interleaved step by step; what holds over their runs |
| `GVariant`, `Ostree`, `OstreeRepo` | the GVariant encoder as the standard defines it, the server's hand-written decoders, and the walk from a commit to a file |
| `Paths` | `filepath` cleaning, joining and relative paths, and the containment check for uploads |
| `TarLimiter`, `TarTree`, `TarUnpack` | the memoised disk limiter, the tree of directories and files, and the unpacking loop |
| `ConfigHistory` | the configuration journal, content-addressed files, the purge |
| `UpdateTargets`, `StateTally`, `RolloutLog` | the targets an update installs, the fold of a rollout log into device states, the summary and the queries |
| `RateLimits`, `RateLimitRuns`, `RateLimitBounds`, `RateLimitBlocks` | the two-generation map and the rate limiter in it; what garbage collection changes, how many requests pass, and how long a refusal lasts |
| `CertRotation` | the ledger of rotated certificates under interleaved requests |
| `TufVersions`, `TufRoots` | versions and links of generated TUF metadata; import and reading of root metadata |
| `Scopes`, `DeviceFlow` | scope masks and their text; the OAuth2 device flow |

How the parts are modelled:

- Code that changes fields or files step by step is a class whose methods are proved equal to functions on plain values;
  the theorems are about those functions. Runs with interleaving and crashes are sequences of events over the same functions.
- Disks and tables are maps, a rename or an SQL statement is one step, time is a number that the caller passes in, and a
  failure of the file system or of the database is a parameter or an event. A directory listing, the order in which Go
  visits a map and the outcome of an unstable sort are arbitrary.
- Hashing, signing, key derivation, JSON and deflate are functions known only by the laws the proofs need, such as
  "decoding an encoded document gives it back" or "the contents saved in this run do not collide".
- Bytes of text are characters; a 64-bit mask is the set of its bits' positions; integers wrap only where the source
  depends on it (the limiter's `int64` sums).
- A property that the code does not have is stated as the exact condition under which it does, as an if-and-only-if over
  all inputs or runs, next to a concrete run in which it fails: `RolloutLog.ReportsAgreeIffSettled`,
  `RolloutProtocol.PresetCommitBreaksEffects`, `ConfigHistory.HeadersNeedNoFiles`, `ConfigHistory.HistoryIsTheLog`,
  `ConfigHistory.FailedAppendBreaksHistory`,
  `RateLimitRuns.InvisibleIffRefills`, `RateLimitBlocks.UnlimitedIffUsedUp`, `RateLimitBlocks.RefusalsHoldIff`,
  `StateTally.SummaryAgrees`, `CertRotation.SafeIffUnexpiredOnly`,
  `TufVersions.DeletedVersion`, `TufRoots.ListingAfterImport`, `DeviceFlow.SingleIffHeeded`,
  `DeviceFlow.TokenTextReadsBack`, `Paths.ContainsIffRoot`, `Ostree.OffsetSizeIsStandard`.
- The watchdog's timing assumption is sufficient (`RolloutProtocol.NoRolloutIsLost`), and `UntimelyHandlerLosesRollout` is
  a run that breaks it and loses a rollout; a run may also break it and lose nothing. What is exact is the state at a
  rollover: `RolloverDropsRecord` and `RolloverDropsOpenFile` say for each handler there whether it goes on to lose its
  rollout.

Where the code and its own comments disagree, the model follows the code: `storage/api/api_storage_tuf.go:142-149` says a
newly generated timestamp gets a higher version, and reserves a thousand of them for that, but the refresh at lines 224-256
re-signs the timestamp under its old version (`TufVersions.RefreshKeepsChain`). The comment on the framing table at
`storage/ostree/ostree.go:93-96` calls its last bytes single bytes, while the code handles three widths.

## Model

| member | source | states |
|---|---|---|
| TextLines.ScanOfUnlines | storage/file.go:189-221 | Lines appended to a file are read back one for one if and only if each is shorter than 64 KiB and does not end in a carriage return; reading reports an error if and only if some line is that long |
| TextLines.SplitOfJoin | storage/api/api_storage.go:475-495 | Splitting undoes joining when no part holds the separator |
| RolloutStore.JournalRoundTrip | storage/api/api_storage.go:454-495 | For the names the handlers' patterns admit, reading the journal gives back exactly the appended tag, update and rollout names, in order, if and only if every record is shorter than the scanner's buffer, as no pattern requires |
| RolloutStore.ReplaySettles | server/ui/daemons/daemons_rollouts.go:52-84 | After a replay every named rollout file that could be read is committed, and files the journal does not name are untouched |
| RolloutStore.Store.AppendJournal | storage/file_updates.go:248-250 | One more record at the end of the part file, whose text stays the print of its records; nothing else changes |
| RolloutStore.Store.RolloverJournal | storage/file_updates.go:252-262 | The part file replaces the journal; without a part file nothing happens |
| RolloutStore.Store.CreateRollout | storage/api/api_storage.go:454-464 | The record is in the part file and the rollout file is written as given |
| RolloutStore.Store.CommitRollout | storage/api/api_storage.go:466-473 | A device of the record's tag that is named or in a named group gets the record's update, every other row stays as it was, and the file is saved committed with just these devices as its effect |
| RolloutStore.Store.ReplayOne | server/ui/daemons/daemons_rollouts.go:62-81 | A stale or committed record changes nothing, an unreadable file is reported, any other file is committed |
| RolloutStore.Store.ProcessJournal | server/ui/daemons/daemons_rollouts.go:52-84 | The journal text is replayed record by record; success is reported if and only if no named existing file was unreadable |
| RolloutStore.Store.WatchdogRound | server/ui/daemons/daemons_rollouts.go:25-50 | The journal rolls over only after a fully successful replay that is not the first since start |
| RolloutProtocol.NoRolloutIsLost | server/ui/daemons/daemons_rollouts.go:25-84 | In every run of interleaved PUTs (racing ones of one name too), commits, watchdog steps, failures and crashes that keeps the timing assumption, each uncommitted rollout file has its record in the journal or the part file, and at a rollover in the part file |
| RolloutProtocol.CommittedEffectsAreExact | storage/api/api_storage.go:466-473 | In every run, timely or not, a committed file's effect is exactly the devices that were of the tag and named or in a named group when one device update for that very rollout was made, provided no PUT body sets the committed flag |
| RolloutProtocol.StepTouchesExactly | storage/api/api_storage.go:807-813 | A step that makes a device update gives its update to the devices of its tag that are named or in a named group and leaves all other rows; no other step but a change from outside touches a row |
| RolloutProtocol.EachUpdateIsPerformed | storage/api/api_storage.go:807-813 | Each device update in the history of a run was performed so on the rows of that moment |
| RolloutProtocol.PutIsCreateAndCommit | server/ui/api/handlers_rollouts.go:223-232 | The six steps of one PUT, in any state and among any other handlers, leave on the disk what creating and committing the rollout does, and no handler |
| RolloutProtocol.PresetCommitBreaksEffects | server/ui/api/handlers_rollouts.go:196-224 | In any state, for a name no device update was made for, writing the PUT's file leaves every committed effect exact if and only if its body leaves the committed flag unset |
| RolloutProtocol.ThreePassesCommitAll | server/ui/daemons/daemons_rollouts.go:29-49 | From whatever a timely run leaves once its handlers are gone, three quiet watchdog passes commit every rollout file |
| RolloutProtocol.TwoPassesAreNotEnough | server/ui/daemons/daemons_rollouts.go:34-41 | A timely run of one uncommitted PUT and a crash ends in a state, without handlers, from which two passes do not commit it |
| RolloutProtocol.PassIsWatchdogRound | server/ui/daemons/daemons_rollouts.go:29-84 | A pass made of the protocol's single steps has the same effect on the disk as the watchdog round of the class |
| RolloutProtocol.UntimelyHandlerLosesRollout | server/ui/daemons/daemons_rollouts.go:26-28 | Without the timing assumption a run exists in which an uncommitted rollout is in no journal |
| RolloutProtocol.RolloverDropsRecord | server/ui/daemons/daemons_rollouts.go:34-41 | A handler that has its record in a journal loses its rollout in a rollover if and only if the part file lacks the record |
| RolloutProtocol.RolloverDropsOpenFile | storage/file_updates.go:248-262 | A handler that has only opened a part file loses its rollout in a rollover if and only if it is not the current part file and nobody else has recorded the same |
| Ostree.HexIsInjective | storage/ostree/ostree.go:116 | Different checksums print differently |
| Ostree.OffsetSizeIsStandard | storage/ostree/ostree.go:62-71 | The reader's offset width is the standard's if and only if the object is smaller than four gigabytes |
| Ostree.ReadOfOffsets | storage/ostree/ostree.go:73-82 | The little-endian reader returns the offset that was framed, in each of the three widths |
| Ostree.RootOfEncodedCommit | storage/ostree/ostree.go:84-117 | On the standard encoding of any commit, whatever its field lengths and alignment, the reader returns that commit's root directory checksum |
| Ostree.RootHashIsAligned | storage/ostree/ostree.go:97-117 | On any bytes, a reported root checksum is 32 bytes inside the object at an 8-aligned position |
| Ostree.LookupArray | storage/ostree/ostree.go:148-188 | The search loop computes the array lookup and indexes within bounds for every byte string |
| Ostree.ArrayHashIsSound | storage/ostree/ostree.go:165-188 | On any bytes, a reported checksum is the 32 bytes right behind a NUL-terminated occurrence of the name |
| Ostree.ArrayHashOfEncoded | storage/ostree/ostree.go:148-188 | On the encoding of any entry list, of files or of directories, the search returns the checksum of the named entry and nothing for an absent name |
| Ostree.ChildOfEncoded | storage/ostree/ostree.go:119-146 | On the encoding of any directory, in all three widths, exactly the named file's checksum is returned as a file, else exactly the named subdirectory's, else nothing |
| Ostree.FirstHashIsTheHash | storage/ostree/ostree.go:148-150 | With distinct names the first match is the only one, and no match means the name is absent |
| OstreeRepo.Walk | storage/ostree/ostree.go:241-254 | The loop over the path's directories descends one checksum at a time and stops at the first missing one |
| OstreeRepo.ReadFile | storage/ostree/ostree.go:225-270 | Reading a path runs through the commit, the directories and the content object, with each step's error |
| OstreeRepo.PartsAreNames | storage/ostree/ostree.go:241 | A path means the names between its slashes, with any number of slashes before and behind |
| OstreeRepo.ContentIsRead | storage/ostree/ostree.go:196-221 | A content is read if and only if the bare object is that content or, without one, the archived object inflates to it behind a header of the size that its first four bytes say |
| OstreeRepo.ReadPartsIsTreeLookup | storage/ostree/ostree.go:223-270 | Reading any path is looking up its parts in the tree, empty parts too |
| OstreeRepo.ReadFileIsTreeLookup | storage/ostree/ostree.go:223-270 | For a repository that holds a tree, reading the path of these names, with any number of slashes before and behind, yields a content if and only if the tree has a file with that content under these names |
| Paths.AcceptedMeansBelowRoot | storage/file_tar.go:439-458 | For a clean root, absolute or relative, and any path, the string test accepts if and only if the segments of the joined path start with the root's segments, and then returns the joined path; the root "." accepts only itself |
| Paths.ContainsIffRoot | storage/file_tar.go:439-458 | For any other clean root, every accepted path lies inside it without parent steps if and only if the root is absolute or its last segment is a name |
| Paths.RelativePathRoundTrip | storage/file_tar.go:377-383 | For a root that is absolute or ends in a name, the relative path of an accepted one has no parent steps and joins back to the accepted path |
| Paths.ParentOfInside | storage/file_tar.go:429-433 | The parent of a clean inner path drops its last segment, and the top one's is the dot at which the walk stops |
| Paths.FollowBoth | storage/file_tar.go:439-453 | Following two paths with a slash between is following one and then the other |
| Paths.FollowOne | storage/file_tar.go:439-453 | An empty segment and a dot stay, a name goes down, two dots leave a directory, stay at the top of an absolute path and climb in a relative one |
| Paths.FollowBack | storage/file_tar.go:439-453 | Going into a directory and out again leads to the same place, whatever comes before |
| Paths.CleanIffFixed | storage/file_tar.go:439-453 | Cleaning gives a clean path, and the clean paths are exactly those it leaves as they are |
| Paths.NamesAreRoot | storage/file_tar.go:439-453 | A path of names, with or without a leading slash, is a root in the sense of these results, with just these segments |
| Paths.EscapeIsRefused | storage/file_tar.go:439-458 | A parent step out of a root is refused, and one followed by a name is accepted if and only if that is the root's own last name |
| Paths.RelativePathLeadsThere | storage/file_tar.go:377-383 | From a base of names the relative path to any clean path of its kind, inside or not, joins back to that path |
| TarLimiter.Recount | storage/file_tar.go:416-434 | Recounting with one more call adds the walked chain of parents, and above a known entry everything is known already |
| TarLimiter.Limiter.Charge | storage/file_tar.go:421-428 | One new entry costs one block, and is refused if and only if the sum or the number of entries passes its limit |
| TarLimiter.Limiter.Walk | storage/file_tar.go:416-434 | The walk terminates, stops at the first known entry, and charges exactly the entries that are new |
| TarLimiter.Limiter.Check | storage/file_tar.go:406-436 | A call is accepted if and only if a recount from scratch stays within every limit, in spite of 64-bit wrap-around; the memo then equals the recount |
| TarTree.CompatiblePairwise | storage/file_tar.go:337-398 | No path is both a file and a directory if and only if each entry can be placed at the start and no entry's file is above another entry or at the path of a directory |
| TarTree.NextIsPlaceable | storage/file_tar.go:337-398 | Entry by entry, what can be created in the tree so far is exactly what is compatible with all that came before |
| TarTree.PlacedTree | storage/file_tar.go:377-398 | The directories are those asked for by some entry, the files those named by one |
| TarTree.FileHolds | storage/file_tar.go:337-355 | A file holds the bytes of its entries in order, each laid over what was there without truncation |
| TarTree.SingleFileHoldsItsBytes | storage/file_tar.go:337-355 | A new file that one entry names holds exactly that entry's bytes |
| TarUnpack.CreateDirFor | storage/file_tar.go:377-398 | An entry passes if and only if its path stays inside, both limiters accept it and no file stands where a directory is needed |
| TarUnpack.WriteFile | storage/file_tar.go:337-355 | A file is taken if and only if there is no directory at its path and its real bytes fit; at most one byte too many is ever written |
| TarUnpack.UnpackItem | storage/file_tar.go:305-355 | The next entry is taken along with the books and the tree kept, or the tarball does not fit |
| TarUnpack.Unpack | storage/file_tar.go:295-362 | Unpacking succeeds if and only if the stream ends after its entries, they fit all limits by both counts and no path is both a file and a directory; then the destination holds exactly their directories and files, a repeated file laid over the earlier one; however it ends, usage is at most one byte over the limit |
| TarUnpack.FilesUnpacked | storage/file_tar.go:305-355 | After unpacking there is a file at a place if and only if there was one or an unskipped file of the tarball resolves to it |
| TarUnpack.DirsUnpacked | storage/file_tar.go:377-398 | There is a directory if and only if there was one or an unskipped entry resolves to it or below it, a file strictly below |
| TarUnpack.BytesUnpacked | storage/file_tar.go:337-355 | Every byte of a file is that of the last entry of its path that is long enough, or the one that was there if there is no such entry |
| ConfigHistory.HexRoundTrip | storage/file_configs.go:214 | Exactly the 64-bit timestamps, negative ones too, are read back as printed |
| ConfigHistory.ParseOfPrint | storage/file_configs.go:292-305 | A line is read back as written if and only if its user name has no colon; the reason may have any |
| ConfigHistory.JournalRoundTrip | storage/file_configs.go:286-308 | Any mix of new lines and of the older two-field lines is read back record by record, the old ones with empty user and reason, if and only if each line is shorter than the scanner's buffer and no user name has a colon or a newline; otherwise nothing is read or already a header differs |
| ConfigHistory.HistoryIsTheLog | storage/file_configs.go:206-269 | Over any saves one after another by users whose logged names have no colon and no newline, with repeated contents, errors and crashes between the steps and in the middle of a purge, the history of up to ten entries is readable if and only if each of these contents was written after its last removal, and then it is exactly the last contents, newest first |
| ConfigHistory.HeadersNeedNoFiles | storage/file_configs.go:222-242 | After any such run by users of any names, files removed or not, the headers of every number of latest entries are those of the log if and only if every logged line is shorter than the scanner's buffer and its user name has no colon and no newline |
| ConfigHistory.ColonMisattributes | storage/file_configs.go:214 | A save by a user named with a colon reads back as another user, the rest of the name in front of the reason |
| ConfigHistory.NewlineBreaksHistory | storage/file_configs.go:286-308 | A save by a user whose name has two lines, after any run and without any error, leaves a history that cannot be read |
| ConfigHistory.NewlineExample | storage/file_configs.go:206-220 | Such a run exists |
| ConfigHistory.UnreadableStays | storage/file_configs.go:206-269 | A history that cannot be read stays unreadable, whatever is saved afterwards and by whom |
| ConfigHistory.FailedAppendBreaksHistory | storage/file_configs.go:214-218 | The cleanup after a failed append breaks a readable history if and only if one of the last ten saves has the same content |
| ConfigHistory.FailedAppendExample | storage/file_configs.go:215-218 | Such a run exists |
| ConfigHistory.PurgeBoundsFiles | storage/file_configs.go:244-269 | An error-free purge leaves no more than the wanted number of files, and every file the last saves refer to |
| ConfigHistory.SaveBoundsFiles | storage/file_configs.go:244-269 | After any run a save without errors leaves at most ten content files, as long as the journal can be read |
| ConfigHistory.ConfigDir.ReadJournal | storage/file_configs.go:286-308 | The journal's records, or an error if a line is too long or malformed |
| ConfigHistory.ConfigDir.WriteConfig | storage/file_configs.go:206-220 | Content first, then journal; what is left after each failure |
| ConfigHistory.ConfigDir.ReadHistory | storage/file_configs.go:222-242 | The latest records newest first, or an error if a file is missing |
| ConfigHistory.ConfigDir.PurgeHistory | storage/file_configs.go:244-269 | Works if and only if there is nothing to do or the journal can be read and no file to delete fails; it deletes in listing order what the journal's last records do not name, never the journal, and stops at the first of these that fails |
| ConfigHistory.ConfigDir.SaveConfig | storage/api/api_storage.go:541-574 | A save is one step of the runs the history theorem is about, and a failed purge is no failure |
| RolloutLog.StatusesAreDistinct | storage/models.go:85-115 | No device report yields a status that the server reserves, and the two installation statuses come from just those reports |
| RolloutLog.LastKnownStates | storage/api/api_storage_update.go:102-141 | One pass gives each device that passes the filter its declared state: the status of its last own event, or rolled back if that is a failed installation and another target succeeded later; no other device gets one |
| RolloutLog.StateMeans | storage/api/api_storage_update.go:102-141 | A device has a state if and only if one of its lines, all later ones being about other targets, is about this update and tells that state: its status, or rolled back when that is a failed installation and a successful one of another target follows |
| RolloutLog.StateDependsOnOwnLines | storage/api/api_storage_update.go:102-141 | A device's state depends only on that device's own lines |
| StateTally.Summarize | storage/api/api_storage_update.go:158-172 | Each line of the summary is the number of devices in that state, the missing count replacing a count of that name |
| StateTally.StateFor | storage/api/api_storage_update.go:175-199 | The query lists each device in the state exactly once |
| StateTally.SummaryAgrees | storage/api/api_storage_update.go:143-199 | The summary adds up to all devices and every count is its query's size if and only if no device's own state is the missing one |
| StateTally.QueriesPartition | storage/api/api_storage_update.go:175-199 | Each device is listed for its own state and no other |
| RolloutLog.RolloutReport | storage/api/api_storage_update.go:209-231 | Summary and query each work out the targets in a visiting order of their own and read the log; the summary adds up to the effect, and each is exact for the targets of its order; a missing log gives two empty answers |
| RolloutLog.RolloutReportIsConsistent | storage/api/api_storage_update.go:143-199 | With the same targets, the summary adds up to the rollout's effect, agrees with every query, and the queries partition the effect |
| RolloutLog.Summary | storage/api/api_storage_update.go:143-172 | Every count is that of the log's states under the targets of this visiting order; fails if and only if the log cannot be read or a target cannot be judged |
| RolloutLog.Query | storage/api/api_storage_update.go:175-199 | Exactly the devices in the state under the targets of this visiting order, each once, with the same failures |
| RolloutLog.ReportsAgreeIffSettled | storage/api/api_storage_update.go:63-94 | Summary and query agree for every log, effect, status and pair of visiting orders if and only if each named target that ties for the highest version of some hardware id is the only highest one of another |
| RolloutLog.TieExample | storage/api/api_storage_update.go:80-94 | Of two targets of one version for one hardware id each is the choice of one visiting order |
| RolloutLog.TieTellsTwoStories | storage/api/api_storage_update.go:102-141 | One log then says rolled back by one choice and installed by the other |
| UpdateTargets.LatestUpdateTargets | storage/api/api_storage_update.go:42-100 | Each name is that of a target of the tag with a hardware id for which no target of the tag has a higher version, each hardware id of a target of the tag has such a name, and it is the first visited one's; fails if and only if some target has malformed custom metadata, or is of the tag for some hardware id and has no readable version |
| UpdateTargets.ChoiceIsUnique | storage/api/api_storage_update.go:80-94 | The choice for a hardware id is the one target above all visited before it and not below any visited later |
| UpdateTargets.SettledNames | storage/api/api_storage_update.go:42-100 | With all ties settled, every visiting order gives the same names |
| UpdateTargets.UnsettledNames | storage/api/api_storage_update.go:42-100 | A tie that is not settled has an order that names the target and one that does not |
| RateLimits.GenerationMap.Get | auth/generations.go:28-39 | A lookup finds the key in either generation and promotes it |
| RateLimits.TokensLater | auth/ratelimiter.go:98-101 | How full a bucket is at one time settles how full it is later |
| RateLimits.RateLimiter.constructor | auth/ratelimiter.go:27-59 | 20 requests, 30 seconds, 5 bad operations and 300 seconds where the settings give no positive number, and a sweep age of twice the longer block |
| RateLimits.RateLimiter.GetOrCreate | auth/ratelimiter.go:95-105 | The remembered limiter or a new full one, in the front generation afterwards |
| RateLimits.RateLimiter.FlagBadOperation | auth/ratelimiter.go:107-119 | One step of the runs below: a token is spent, or the identifier is blocked; no sweep |
| RateLimits.RateLimiter.Allow | auth/ratelimiter.go:121-144 | One step of the runs below, with its answer |
| RateLimitRuns.TouchedIsFound | auth/generations.go:28-53 | In every run a limiter touched at a time is found before that time plus the sweep age, and the generations stay disjoint |
| RateLimitRuns.BlocksAreRemembered | auth/ratelimiter.go:48-51 | No sweep drops a limiter whose block has not run out |
| RateLimitRuns.CollectionIsInvisible | auth/ratelimiter.go:95-144 | If the limit in minutes fits the sweep age, an answer differs from that of a limiter that never forgets if and only if the identifier's tokens are exactly used up at that instant and the two have different reasons stored for its last block |
| RateLimitRuns.CollectionIsVisible | auth/ratelimiter.go:95-144 | Otherwise some run allows, with tokens left, a request that the limiter which never forgets refuses |
| RateLimitRuns.StaleReasonShows | auth/ratelimiter.go:121-144 | The exception is real under all settings that fit: a run allows, at the instant its tokens are used up, a request that the limiter which never forgets refuses for the reason of an old block |
| RateLimitRuns.InvisibleIffRefills | auth/ratelimiter.go:23-59 | Garbage collection shows in such stale reasons only, if and only if the limit in minutes fits the sweep age; under no settings is it invisible without exception |
| RateLimitRuns.DefaultsRefill | auth/ratelimiter.go:34-39 | The default bad-operation settings satisfy that condition |
| RateLimitBounds.RateIsLimited | auth/ratelimiter.go:121-144 | In every run, sweeps and forgotten identifiers included, between two times at most the rate times the seconds between them and one more of an identifier's requests pass, those at the very instant of one of its flags aside |
| RateLimitBlocks.BurstOfNew | auth/ratelimiter.go:107-144 | What the n-th request of a new identifier is answered at the instant of any number of its flags: more flags than the limit block it, exactly as many let everything pass, and with fewer it passes up to the rate and is then blocked for the rate |
| RateLimitBlocks.UnlimitedIffUsedUp | auth/ratelimiter.go:130-141 | After any run, any number of requests at one instant pass if and only if the identifier is not blocked, its bad-operation tokens are used up and no reason of a block is stored |
| RateLimitBlocks.RefusalsHoldIff | auth/ratelimiter.go:107-144 | In every run, across sweeps, whoever is refused until some time is refused whenever they ask before it, if and only if the block for the rate is not longer than the one for bad operations |
| RateLimitBlocks.FlagsShortenBlock | auth/ratelimiter.go:114-118 | Otherwise a run exists in which a request is refused for the rate and a later one passes before that block ends, because flags replaced it by a shorter one |
| RateLimitBlocks.DefaultsHold | auth/ratelimiter.go:31-39 | Under the default block durations refusals hold |
| CertRotation.CertTables.RotateCert | storage/gateway/storage.go:390-427 | The transaction takes effect if and only if neither certificate is in the ledger, and otherwise changes nothing; then the next one is stored and the current one retired until its expiry, or until now if that is later |
| CertRotation.CertTables.CreateDevice | storage/gateway/storage.go:347-360 | A first certificate is stored unless the device has a row |
| CertRotation.StoredIsNotRetired | storage/gateway/storage.go:114-147 | In every run of interleaved requests and collections no stored certificate is in the ledger |
| CertRotation.RetiredStaysAway | storage/gateway/storage.go:390-427 | A retired certificate that has not expired is stored nowhere and no request can bring it back or retire it again |
| CertRotation.RotationIsCompareAndSet | server/gateway/middleware.go:47-57 | As long as retired certificates had not expired, each rotation replaces exactly the certificate its request read, and each certificate is rotated away at most once |
| CertRotation.RetiredAgain | storage/gateway/storage.go:116-120 | Only an expired certificate can be rotated away a second time |
| CertRotation.StaleRequestOverwrites | server/gateway/middleware.go:47-57 | For every certificate and every time from its expiry on there is a run in which it is rotated away, its row is collected, and a request that read it earlier overwrites the newer certificate, which is then neither stored nor retired |
| CertRotation.SafeIffUnexpiredOnly | server/gateway/middleware.go:47-57 | Under a rule for which certificates may be rotated away when, all rotations of all runs replace exactly what was read and happen once per certificate if and only if the rule admits no expired certificate |
| TufVersions.GetLatestVersions | storage/api/api_storage_tuf.go:180-206 | The maximum of one and the targets versions of the readable listed updates, and of their target versions |
| TufVersions.GetLatestTargetVersion | storage/tuf/tuf_data.go:159-174 | The highest decimal version among the targets, or zero |
| TufVersions.MakeChain | storage/tuf/tuf_crypto.go:113-122 | The written snapshot names the written targets and the written timestamp the written snapshot, each by version, length and hash |
| TufVersions.GenerateTufMeta | storage/api/api_storage_tuf.go:49-178 | Fails only on a bad hash or without keys; else the files form a chain at the next version, by version, length and hash of the written bytes, and their one target has the name, hash and version of the options, or the next version if they give none |
| TufVersions.WriteDefaultMeta | storage/file_tuf.go:303-380 | The default files form the same chain at version one, without targets |
| TufVersions.RefreshKeepsChain | storage/api/api_storage_tuf.go:224-256 | A refresh replaces an expiry that is no more than a day ahead and keeps every link and version, the timestamp's too |
| TufVersions.VersionsOnlyGrow | storage/api/api_storage_tuf.go:49-206 | In any run of creations, foreign uploads, deletions and refreshes each creation is above all listed updates and the defaults, its timestamp at least a thousand above those of the updates the server generated, and all generated chains stay whole at distinct versions |
| TufVersions.DeletedVersion | storage/api/api_storage_tuf.go:185-206 | The version after a deletion is above the deleted one if and only if a listed update is still as high |
| TufVersions.DeletedVersionIsReused | storage/api/api_storage_tuf.go:185-206 | With nothing else listed, creation falls back to version two |
| TufVersions.UpdateStore.CreateUpdate | storage/api/api_storage.go:583-613 | With metadata in the upload a creation keeps it as it came and needs a target of the tag; without, it needs the server's keys and is the run's creation step, with the target the options ask for; in every other case nothing changes |
| TufVersions.UpdateStore.DeleteUpdate | storage/api/api_storage.go:379-388 | Refused, with nothing changed, if and only if the update is absent or in use; else the run's deletion step |
| TufVersions.UpdateStore.RefreshTimestamps | storage/api/api_storage_tuf.go:208-222 | The loop over all updates is the run's refresh step |
| TufRoots.RootNameRoundTrip | storage/file_tuf.go:423-430 | The version is read back from a root file's name, the decimal number before `.root.json` |
| TufRoots.OddNames | storage/file_tuf.go:423-430 | A signed number counts with its sign, and what is no number as version zero |
| TufRoots.OneByOneIffCovers | storage/file_tuf_import.go:72-82 | Sorted versions pass the check if and only if they are 1 to n, each once |
| TufRoots.RootMetaNames | storage/file_tuf.go:398-421 | Exactly the root files, by ascending version |
| TufRoots.GetRoots | storage/file_tuf.go:184-204 | All roots in that order, or an error if one does not parse |
| TufRoots.ReadRoot | storage/file_tuf.go:206-226 | The root of a version, or the last listed one for version zero |
| TufRoots.FindFirstRootSigner | storage/file_tuf_import.go:164-176 | A usable candidate with a wanted id, or none exists |
| TufRoots.ParseRoots | storage/file_tuf_import.go:46-56 | Succeeds if and only if every document is a root with roles |
| TufRoots.SortRoots | storage/file_tuf_import.go:71-74 | The same roots, by ascending version |
| TufRoots.TufHandle.WriteRoots | storage/file_tuf_import.go:148-160 | Each root under its own version as it came, the new one after them, other files untouched |
| TufRoots.TufHandle.ImportTuf | storage/file_tuf_import.go:38-162 | Succeeds if and only if there are no keys yet, every given document is a root, the versions are 1 to n in some order and a candidate can sign for the newest root; then all roots are stored as given and root n + 1 after them, else nothing is written |
| TufRoots.ClientFollows | storage/file_tuf_import.go:136-146 | A client that trusts root n accepts root n + 1 if and only if root n lists the signing key under its id, or has a threshold below one |
| TufRoots.NewRootOwnsRoles | storage/file_tuf_import.go:116-146 | The new root has just the four roles, each with its own new key alone and threshold one, lists these keys under their ids, and is signed by the new root key and the old one |
| TufRoots.ListingAfterImport | storage/file_tuf.go:398-421 | The listing is 1 to n + 1 in order if and only if the directory held no stray root file before |
| TufRoots.ReadBack | storage/file_tuf.go:184-226 | Then reading gives versions 1 to n + 1, the given ones and the new one last and newest |
| TufRoots.ImportAndServe | storage/file_tuf_import.go:38-162 | From the given documents to the served roots: the import works under exactly that condition, the roots read afterwards are versions 1 to n + 1 with the given ones first, the new one gives each of the four roles its own new key with threshold one, and a client that trusts version n accepts version n + 1 if and only if version n lists the old key under its id or asks for no signature |
| Scopes.TextRoundTrip | storage/users/scopes.go:86-126 | A mask is read back from its text if and only if it is a non-empty union of declared scopes; whatever parses is such a union |
| Scopes.MeetKeepsProper | storage/users/scopes.go:27-40 | Unions of declared scopes are closed under intersection, so a non-empty grant can be written down and read back |
| Scopes.AddKeepsProper | storage/users/scopes.go:92-102 | Adding a declared scope to a union of declared scopes gives such a union |
| Scopes.PrintedIsUnion | storage/users/scopes.go:108-126 | Leaving out the narrower scopes loses nothing |
| Scopes.TextNeverWidens | storage/users/scopes.go:92-126 | Whatever is read back from a printed mask is within that mask |
| Scopes.PrintedIsBroadest | storage/users/scopes.go:108-126 | A declared scope is printed if and only if the mask has it and no broader declared one |
| Scopes.NamesMean | storage/users/scopes.go:17-55 | Each declared name, with any space around it, reads as its bits: updating comes with reading, and each resource has bits of its own |
| DeviceFlow.TokensStayWithin | server/ui/api/handlers_oauth2.go:134-210 | In every interleaving a token's scopes lie within the request, the approver's session, and what the users table said of its owner at some earlier time; and its owner is the approver |
| DeviceFlow.TokenTextReadsBack | storage/users/tokens.go:255-300 | In every run, with users' scopes being unions of declared ones, what is stored for a token reads back as its scopes if and only if they are not empty; an empty grant's text never parses |
| DeviceFlow.EmptyTokenIsStored | server/ui/api/handlers_oauth2.go:188-210 | Such a token is made when the user's scopes change after the approval to ones with nothing in common |
| DeviceFlow.DecisionsAreFinal | storage/users/oauth2.go:172-202 | In every run no row is both authorized and denied, and approver, scopes and denial are set once |
| DeviceFlow.RowsFollow | storage/users/oauth2.go:172-232 | In every run a row comes only from a request, changes only when an undecided one is approved or denied, and goes if and only if it has expired at a clean-up or a token handler deletes it |
| DeviceFlow.StartsExactly | server/ui/api/handlers_oauth2.go:145-172 | A token handler gets as far as the user if and only if its row has not expired and is approved; approvals and denials start if and only if it has not expired and is undecided |
| DeviceFlow.DenialDenies | server/ui/web/handlers_oauth2.go:147-158 | A denial that starts and goes on at once sets its row's denial and changes nothing else |
| DeviceFlow.DeletedUserGetsNothing | server/ui/api/handlers_oauth2.go:173-182 | A user deleted before the token handler loads them gets no token |
| DeviceFlow.DeniedGivesNoToken | storage/users/oauth2.go:188-202 | A code that was denied at some time gives no token in the whole run |
| DeviceFlow.OneTokenPerCode | server/ui/api/handlers_oauth2.go:194-203 | If the token handlers of a code run one after another, no code gives two tokens |
| DeviceFlow.RacingHandlersGiveTwoTokens | storage/users/oauth2.go:204-217 | If they interleave, any code, user and printable approval can give two, the second after a delete that removed nothing |
| DeviceFlow.OneRemovalPerCode | storage/users/oauth2.go:204-217 | In every interleaving at most one token of a code comes from a handler whose delete removed the row |
| DeviceFlow.SingleIffHeeded | storage/users/oauth2.go:214-217 | Under a rule for which tokens to refuse, no interleaving gives two tokens for a code if and only if the rule refuses every token that can come after a delete that removed no row; the code does not look at the row count |
| DeviceFlow.DeviceFlowStore.DeviceToken | server/ui/api/handlers_oauth2.go:111-211 | Each of the five answers under exactly its condition; a granted token has the row's scopes its owner now has, and the row is gone for it and for a token that cannot be made |
| DeviceFlow.DeviceFlowStore.RedeemTwice | server/ui/api/handlers_oauth2.go:111-211 | A second redemption in sequence is refused |

## Left out

- Torn writes: an append to a journal and a write through a `..part` file either happen or do not; a half-written journal line, and two writers of one content sharing one part file, are not modelled.
- Concurrent saves of one configuration: a purge of another save may remove a file that is written and not yet journalled; the history theorem is about saves one after another.
- Rollout files whose names end in `..part`, and an update named like the journal, are not part of the model.
- RolloutStore.Store.CreateRollout: a tag so long that its record reaches 64 KiB, after which reading the journal stops at that record; `RolloutStore.JournalRoundTrip` is the exact limit, and the protocol's records are shorter.
- RolloutStore.Store.CommitRollout: the effect is a set, because SQL returns the rows in no promised order.
- RolloutProtocol.ThreePassesCommitAll: an update deleted and created again under another tag may be committed with the tag of its stale record, as in the code; the theorem says committed, not by which tag.
- Ostree.RootOfEncodedCommit: objects of four gigabytes and more, for which the reader has no offset width; `Ostree.OffsetSizeIsStandard` is the exact limit.
- Resolving a ref, checking an object hash and listing heads (storage/ostree/ostree.go:26-58, 272-298): a commit hash is given.
- TarUnpack.Unpack: failures of the disk itself, modes and links, what makes a header malformed, and event hooks other than the skipping one; the conflicts that the tarball's own names cause are modelled.
- The modes that empty, merge or swap the destination directory, and the temporary file (storage/file_tar.go:147-293): an upload that replaces its destination empties it first, so there is no rollback to prove.
- RateLimits.RateLimiter.Allow: tokens are real numbers and one call reads the clock once; the library's floating point and its rounding to nanoseconds are not modelled, nor are block durations beyond the range of `time.Duration`.
- RolloutLog.RolloutReport: the log does not grow between the two calls, and a rollout file that cannot be read is not modelled.
- CertRotation.RotationIsCompareAndSet: certificates stand for their hashes, so collisions of the 128-bit hash are left out, and so are the rotation events and the denied list, which only turns requests away.
- TufVersions.VersionsOnlyGrow: creations run one after another; two that race read the same latest versions and get one version, as nothing in the code keeps them apart.
- TufVersions.UpdateStore.CreateUpdate: unpacking the upload and probing it for options are parameters, and so is the search for the tag in uploaded targets; the generated target carries the tag.
- TufVersions.GenerateTufMeta: versions are unbounded integers, so the overflow of a foreign version near the largest one is left out; signatures and failing writes are too.
- TufRoots.TufHandle.ImportTuf: writes do not fail, and the default metadata it also writes is `TufVersions.WriteDefaultMeta`; creating the first root of a fresh server is the same construction without imported roots.
- Scopes.TextRoundTrip: the sorting of the printed names; the table is in that order.
- DeviceFlow.DeviceFlowStore.DeviceToken: failing statements of the database.
- Token secrets, their lookup and the narrowing of scopes at each use (storage/users/tokens.go:30-69), token updates and the maximum lifetimes, which are one comparison each.
- Latest root name of an update, file name patterns of device reports, keep-alive of log streams, HTTP routing, pages, seeding and scripts.
