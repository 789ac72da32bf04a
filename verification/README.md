# Models of the Cedar switch firmware

The firmware keeps a network configuration, an ESP32-C6 coprocessor and two logs alive across power
cuts, failing drivers and concurrent requests. This project models the parts of it that carry an argument,
and proves the argument:

- **Network changes** (`NetState`, `NetTransaction`, `NetOutcome`, `NetworkManager`, `NetFlash`): one transaction,
  staged, applied, confirmed or rolled back by request threads under a lock and by one worker that drops the
  lock around hardware and storage. Each stretch under the lock is one step; any request may come between two.
- **The configuration store** (`DeviceConfig`): two committed slots written in turn and a journal, on a flash
  that may tear any write or erase and may lose power inside either.
- **Jobs** (`Jobs`): full records, the compact ones that outlive them, and the keys that name them.
- **Coprocessor claims** (`CoprocessorClaims`, `CoprocessorManager`): a lock-free protocol at the grain of single
  atomic accesses.
- **The log store** (`ByteRing`, `LogRecords`, `LogStore`, `LogReading`, `LogCursor`, `Utf8`): two byte rings walked
  in both directions, read while being appended to, and the cursors handed to clients.
- **The coprocessor's console** (`Esp32Lines`, `Esp32Repair`, `Esp32LogSource`): any bytes in, clean lines out.
- **Firmware images** (`EspImage`, `FwImage`, `FwPieces`, `FwGrammar`, `FwImageCheck`, `Md5`, `FwDigest`): a streaming
  check against a grammar that is written down without it.
- **The staged image** (`FirmwareFiles`, `FirmwareSafety`, `FirmwareBytes`, `FirmwareFile`, `FirmwareStore`): a data file
  and a record that names its bytes, with a power cut possible in every file operation.
- **The install** (`Updater`, `UpdaterSafety`, `UpdaterOutcome`, `UpdaterRun`, `EspLoader`): a journalled run with a
  point of no return, and the serial session under it.
- **Addresses** (`IpText`, `IpParser`): the text forms of IPv4 and IPv6.

Each part has functions on values that say what a step does, lemmas about them over whole runs, and, since the
source changes state in place, classes with the source's fields whose methods are proved to do those steps.
`dafny verify dfyconfig.toml` checks everything.

## Findings

Where a promise turned out not to hold of the code, the code is modelled as it is, a run shows it, and the exact
condition is proved.

| member | input | holds exactly when |
|---|---|---|
| `DeviceConfig.RolledBackGenerationReturns` | a commit whose record reaches the slot although the write answers an error, then a rollback that succeeds, then a reboot: the rolled-back generation is in force | the slot of the next commit holds no record of the next revision (`RebootKeepsUnlessOrphan`); only a commit that answered an error leaves one (`OrphanComesFromFailedCommit`) |
| `NetOutcome.CommittedIsNotInForce` | `network_manager_restore_defaults()` while the worker is between its push of the committed configuration and its push of a candidate; then stage and apply: the next pass pushes the committed configuration over the candidate, which is confirmed and reported COMMITTED | the last push was not the committed configuration over another candidate that awaited or had its confirmation (`HardwareFollowsUnlessLost`); never when both calls come from the worker's own thread between passes, boot() before the first (`HardwareFollows`) |
| `CoprocessorClaims.StrayReleaseBreaksExclusion` | a release without a claim, while a refused claim is between its two accesses: the counter ends at -1, and the next claim is held through a reset. The comment on the counter says it cannot happen | a counter is the claims held less those taken by unmatched releases (`CountIsExactUnlessStolen`); with matched releases there is none (`ClaimsExclude`) |
| `FirmwareBytes.HalfRemovedUploadHasNoBytes` | a delete, expiry or create whose first unlink succeeds and whose second fails, or between which the power goes: the record counts bytes that are in no file | no removal has stopped so since the last start (`FirstBytesAreTheChunks`, `EveryStep`) |
| `UpdaterOutcome.LostSaveHidesErasure` | the journal save at the begin phase fails, and the power goes while the ROM erases: after the restart recovery_required is false. The comment at the save says that only `interrupted` is lost | a save at begin or later has reached storage (`RestartAsksForRecovery`) |
| `UpdaterOutcome.LateSaveOverwrites` | `coprocessor_updater_start()` between the end of a run and that run's last save, which then overwrites the journal of the new install | the last save of the run before did not come after the accepting save (`RestartReportsAccepted`); never when nobody asks in between (`PatientIsNeverOverwritten`) |
| `UpdaterOutcome.CancelledButFailed` | a cancel after the last look, then a failure before begin: the job is cancelled and last_update says failed, where a cancelled install should leave it | no cancel came after the last look (`FailsUnlessCancelled`) |
| `EspLoader.AnnouncedIsSent` | a size above 2^32 - 4: the rounded size wraps to 0 and the ROM is told to expect nothing | the size is at most 2^32 - 4; staged images are far below |

Two comments of the headers promise more than the code does, and the code was followed: `fw_image.h` has a file that
ends before the application refused at once, the check refuses it at the end; `firmware_store.h` has the free space
checked at every commit, it is checked when the upload is created.

## Model

| member | source | states |
|---|---|---|
| NetTransaction.NextKeeps | modules/network-manager/lib/network_manager.c:354-426 | the invariant of the transaction (claim, job, journal, deadline, worker) is kept by every request and every locked section, whoever runs in between |
| NetTransaction.RunKeeps | modules/network-manager/lib/network_manager.c:354-1388 | ... and so by every run of them |
| NetOutcome.EveryMoveIsLegal | modules/network-manager/lib/network_manager.c:152-163 | the state only moves along the transitions of the API, and a transaction is replaced only when it is over or its staged time is up |
| NetOutcome.ConfirmedIsHonoured | modules/network-manager/lib/network_manager.c:393-426 | once confirmed, a change is not expired and not rolled back on request: it ends committed, or is undone because the store answered its commit with an error |
| NetOutcome.CommitIsTheStores | modules/network-manager/lib/network_manager.c:1288-1327 | the worker learns of a commit exactly what the store did: the candidate is the next generation, or nothing changed |
| NetOutcome.AtEveryRelease | modules/network-manager/lib/network_manager.c:354-390 | at every release of the lock: the coprocessor is claimed exactly while a change is applying, awaiting or rolling back; its job waits for confirmation exactly while the change awaits one, cannot be cancelled, and tells the outcome at the end; a change in flight is in the journal; COMMITTED is reported exactly of candidates that became the committed generation |
| NetOutcome.OverdueEnds | modules/network-manager/lib/network_manager.c:1566-1592 | a pass of process() that begins with a change past its deadline, confirmed or rolling back ends with that transaction over, whatever hardware and store answer and whichever requests interleave |
| NetOutcome.PassReturns | modules/network-manager/lib/network_manager.c:1566-1592 | and the pass ends, after at most nine sections of its own |
| NetOutcome.OnlyHarmfulPushes | modules/network-manager/lib/network_manager.c:1226-1250 | what is on the hardware is what the transaction says, after a step exactly unless it is the push of the committed configuration over another, confirmed or awaiting candidate |
| NetOutcome.HardwareFollowsUnlessLost | modules/network-manager/lib/network_manager.c:1226-1388 | in every run: with no transaction in flight and no push owed, the last configuration pushed is the committed one if and only if the last push was not such a one |
| NetOutcome.HardwareFollows | src/services/network/network_service.c:179-213 | when boot() comes before the first pass and restore_defaults() between two passes of the worker, as the service calls them, it always is |
| NetOutcome.HardwareFollowsDisciplined | modules/network-manager/lib/network_manager.c:1596-1668 | the same for any callers that ask for no push between the worker's two pushes nor, for boot(), while a candidate is on the hardware |
| NetOutcome.BootClobbers | modules/network-manager/lib/network_manager.c:1596-1605 | boot() between two passes while a change awaits confirmation has the next pass push over it |
| NetOutcome.ClobberedChangeCommits | modules/network-manager/lib/network_manager.c:1226-1250 | from such a push there is a run that reports the change COMMITTED while the hardware has the old configuration |
| NetOutcome.CommittedIsNotInForce | modules/network-manager/lib/network_manager.c:1619-1668 | a run from boot that ends so: factory defaults restored between the worker's two pushes, and a change applied at once |
| NetOutcome.UndoneMeansRestored | modules/network-manager/lib/network_manager.c:1329-1388 | a change that ends undone leaves the committed configuration on the hardware, even then |
| NetState.TheStoreDoesThat | modules/device-config-store/lib/device_config_store.c:623-799 | without a power cut, the store calls of the transaction change the copies in RAM as the transaction machine assumes, for every outcome of the flash |
| NetFlash.PowerCutRecovers | modules/network-manager/lib/network_manager.c:695-847 | the transaction over its flash, with the power going inside any store call of any run: the next boot finds the generation in force, the candidate whose commit was under way, the defaults being restored, or one whose commit the store had refused since; without such a refusal nothing else |
| NetFlash.CommitIsDurable | modules/network-manager/lib/network_manager.c:1288-1327 | once the worker is told of a commit, a boot finds the candidate whatever comes |
| NetworkManager.Manager.Expire | modules/network-manager/lib/network_manager.c:393-426 | expire_locked() on the manager's own fields is the model's expiry |
| NetworkManager.Manager.StageConfig | modules/network-manager/lib/network_manager.c:590-690 | staging: every refusal, and the new candidate |
| NetworkManager.Manager.ApplyTransaction | modules/network-manager/lib/network_manager.c:714-847 | applying: replay by key, refusals, claim, job, journal, or the failed transaction |
| NetworkManager.Manager.ConfirmTransaction | modules/network-manager/lib/network_manager.c:851-912 | confirming, also a second time |
| NetworkManager.Manager.RollbackTransaction | modules/network-manager/lib/network_manager.c:914-991 | rolling back, or discarding a staged candidate |
| NetworkManager.Manager.RestoreDefaults | modules/network-manager/lib/network_manager.c:1619-1668 | defaults through the store, and the push they ask for |
| NetworkManager.Manager.ProcessCommittedPush | modules/network-manager/lib/network_manager.c:1226-1250 | the worker's first push |
| NetworkManager.Manager.ProcessApplyBegin | modules/network-manager/lib/network_manager.c:1252-1268 | the section before the candidate is pushed |
| NetworkManager.Manager.ProcessApplyEnd | modules/network-manager/lib/network_manager.c:1269-1286 | the section after it: awaiting, or rolling back, or overtaken |
| NetworkManager.Manager.ProcessCommitEnd | modules/network-manager/lib/network_manager.c:1300-1327 | the section after the store's commit |
| NetworkManager.Manager.ProcessRollbackEnd | modules/network-manager/lib/network_manager.c:1355-1388 | the section after the rollback, with the outcome of its reason |
| DeviceConfig.RecoversOldOrNew | modules/device-config-store/lib/device_config_store.c:367-475 | for every run with the power cut anywhere: a boot finds the generation last reported in force or one whose commit was started since, and only the former when there was no such commit; its password flags say what its secrets are |
| DeviceConfig.OnlyCommitChangesSurvivor | modules/device-config-store/lib/device_config_store.c:704-758 | only a commit changes what a boot would find, only to its own generation, and certainly so when it answered success |
| DeviceConfig.CommitSparesTheGoodCopy | modules/device-config-store/lib/device_config_store.c:238-246 | a commit never touches the slot of the generation in force |
| DeviceConfig.RebootKeepsUnlessOrphan | modules/device-config-store/lib/device_config_store.c:367-475 | a boot brings back what is in force if and only if the slot of the next commit does not hold a record of the next revision |
| DeviceConfig.OrphanComesFromFailedCommit | modules/device-config-store/lib/device_config_store.c:204-232 | such a record is left only by a commit that answered an error although its bytes are on flash |
| DeviceConfig.ReportIsTrueUnlessOrphan | modules/device-config-store/lib/device_config_store.c:340-365 | what init reports of a journal is what happened to it, exactly then |
| DeviceConfig.RolledBackGenerationReturns | modules/device-config-store/lib/device_config_store.c:760-799 | a run in which a transaction rolled back with success is the committed generation after a reboot |
| DeviceConfig.Store.Boot | modules/device-config-store/lib/device_config_store.c:367-475 | init as the source runs it, with its report |
| DeviceConfig.Store.PendingBegin | modules/device-config-store/lib/device_config_store.c:623-702 | begin on the flash: refusals, the journal written and read back, or erased |
| DeviceConfig.Store.PendingCommit | modules/device-config-store/lib/device_config_store.c:704-758 | commit on the flash |
| DeviceConfig.Store.PendingRollback | modules/device-config-store/lib/device_config_store.c:760-799 | rollback on the flash |
| DeviceConfig.Store.ResolveSecret | modules/device-config-store/lib/device_config_store.c:587-621 | kept, cleared or replaced secrets, and the lengths refused |
| DeviceConfig.Store.CheckTxnId | modules/device-config-store/lib/device_config_store.c:303-328 | the loop accepts exactly the ids of 1 to 64 allowed characters |
| Jobs.NeverEvictedNorCancelled | modules/job-manager/lib/job_manager.c:235-259 | a job in flight that is not cancellable survives unchanged any sequence of creations, cancellations and calls about other jobs |
| Jobs.CreateKeepsActive | modules/job-manager/lib/job_manager.c:351-412 | creating a job leaves every job in flight as it is, and makes at most the one new job |
| Jobs.TerminalIsFinal | modules/job-manager/lib/job_manager.c:139-159 | an ended job keeps its outcome as long as it has a record |
| Jobs.NeverAgain | modules/job-manager/lib/job_manager.c:351-412 | an id whose record is gone is never given to another job |
| Jobs.LookupAnswers | modules/job-manager/lib/job_manager.c:293-324 | a key is answered with a job if and only if that job is the one remembered under it, in either tier, for this request |
| Jobs.CreateKeepsKeysUnique | modules/job-manager/lib/job_manager.c:351-412 | no key is ever remembered twice over both tiers |
| Jobs.EvictionRemembers | modules/job-manager/lib/job_manager.c:198-228 | the record that makes room leaves its key behind |
| Jobs.TouchesOneJob | modules/job-manager/lib/job_manager.c:414-468 | a call on a job touches that job alone, an ended one not at all |
| Jobs.Manager.ClaimRecord | modules/job-manager/lib/job_manager.c:235-259 | a free record, else the ended one touched longest ago, retired; else none |
| Jobs.Manager.RetireToCompact | modules/job-manager/lib/job_manager.c:198-228 | the first free compact record, else the one retired longest ago |
| Jobs.Manager.LookupLocked | modules/job-manager/lib/job_manager.c:293-324 | the two loops are the lookup |
| Jobs.Manager.JobCreate | modules/job-manager/lib/job_manager.c:351-412 | creation on the arrays |
| Jobs.Manager.JobCancel | modules/job-manager/lib/job_manager.c:568-593 | cancellation on the arrays |
| Jobs.Manager.JobSetCancellable | modules/job-manager/lib/job_manager.c:548-566 | and the flag that refuses it |
| CoprocessorClaims.ClaimsExclude | modules/coprocessor-manager/lib/coprocessor_manager.c:125-147 | any number of threads interleaved at single atomic accesses, with releases that match claims: no apply claim is held while a bridge or flasher has the UART or has passed its check or a reset pulse runs, no scan claim while flashing; the counters are the claims held or in doubt; between switches the bits are the mode's |
| CoprocessorClaims.CountIsExactUnlessStolen | modules/coprocessor-manager/lib/coprocessor_manager.c:403-439 | in every run a counter is the claims held or in doubt less those that unmatched releases took |
| CoprocessorClaims.RefusedForAReason | modules/coprocessor-manager/lib/coprocessor_manager.c:403-422 | while nothing is switched or reset, a claim is refused exactly for the mode |
| CoprocessorClaims.StrayReleaseBreaksExclusion | modules/coprocessor-manager/lib/coprocessor_manager.c:424-439 | a run in which one release without a claim leaves -1, and later a claim is held during a reset pulse |
| CoprocessorManager.WaitQuiet | modules/coprocessor-manager/lib/coprocessor_manager.c:187-215 | the polling loop stops at the first quiet look, or when the time or the looks are up |
| CoprocessorManager.Manager.SetMode | modules/coprocessor-manager/lib/coprocessor_manager.c:291-337 | a switch among other threads' accesses is a run of the protocol; refused it changes nothing, failed the old owner or nobody has the UART, and the bits end as the mode's |
| CoprocessorManager.Manager.ResetChip | modules/coprocessor-manager/lib/coprocessor_manager.c:339-378 | the same of a reset |
| ByteRing.Ring.BothWalksAgree | modules/log-store/lib/log_store.c:236-339 | the bytes between tail and head read the same forwards by headers and backwards by trailers: as the last `records` records appended; appended = overwritten + records |
| ByteRing.ForwardsFindsAll | modules/log-store/lib/log_store.c:236-262 | records laid end to end are found again by their headers |
| ByteRing.BackwardsFindsAll | modules/log-store/lib/log_store.c:518-560 | and by their trailers |
| ByteRing.Ring.MakeRoom | modules/log-store/lib/log_store.c:280-310 | eviction drops the oldest records, no more than it must; the length it reads is never insane |
| ByteRing.Ring.Put | modules/log-store/lib/log_store.c:93-102 | the copy into the ring, in two parts where it wraps |
| LogReading.ReaderSeesAll | modules/log-store/lib/log_store.c:598-671 | a reader among any appends and evictions is shown records in strictly increasing sequence, has a gap flagged exactly when it missed one, and at END without one has been shown every record since its start |
| LogReading.TailThenReadIsNewest | modules/log-store/lib/log_store.c:518-596 | reading forward from where the backward search stopped gives the newest `count` matching records of both rings, or all, when the scan budget was not used up; else the newest it found |
| LogReading.ForwardIsLooks | modules/log-store/lib/log_store.c:598-671 | reading with nobody appending is one locked look after the other |
| LogStore.Store.Append | modules/log-store/lib/log_store.c:236-339 | an append on the rings is that step of the readers' world, and a refused entry changes nothing |
| LogStore.Store.LookOnce | modules/log-store/lib/log_store.c:598-660 | one locked section of a read, on the bytes, is one look; the "insane length" branches are dead |
| LogStore.Store.Read | modules/log-store/lib/log_store.c:598-671 | the loop of looks, to a match, the end or the budget |
| LogStore.Store.ReaderAt | modules/log-store/lib/log_store.c:494-516 | where a reader from a cursor stands, and its gap |
| LogStore.Store.ReaderTail | modules/log-store/lib/log_store.c:518-596 | the backward search on the bytes |
| LogCursor.CursorDecodes | modules/log-store/lib/log_store.c:733-838 | a cursor decodes to the aligned positions it was made from, and is stale for another boot |
| LogCursor.CursorIsCanonical | modules/log-store/lib/log_store.c:774-838 | any text that decodes is the one text that is encoded for those positions, boot and filter |
| LogCursor.Encode | modules/log-store/lib/log_store.c:733-772 | the encoder writes that text, or finds no room |
| LogCursor.Decode | modules/log-store/lib/log_store.c:774-838 | the decoder is that parser, for text of any length and letters |
| Utf8.Cut | modules/log-store/lib/log_store.c:150-176 | of well-formed text, the longest prefix within the capacity that ends between characters |
| Esp32Lines.EveryLineIsClean | modules/esp32-log-source/lib/esp32_log_source.c:126-142 | for every byte stream, flush, overflow and reset: each line is non-empty well-formed UTF-8 of at most the maximal length, without control bytes but tab, with the banner nowhere but in front |
| Esp32Repair.LineComesOut | modules/esp32-log-source/lib/esp32_log_source.c:255-306 | the bytes of a line come out as the repaired line: each maximal subpart replaced, a run of them once |
| Esp32Repair.CleanComesOut | modules/esp32-log-source/lib/esp32_log_source.c:319-370 | a line that is clean already comes out byte for byte |
| Esp32Repair.SecondTimeTheSame | modules/esp32-log-source/lib/esp32_log_source.c:319-370 | what came out once comes out the same a second time |
| Esp32Repair.RepairedIsText | modules/esp32-log-source/lib/esp32_log_source.c:239-306 | what is repaired is well-formed |
| Esp32LogSource.ParsedWasWritten | modules/esp32-log-source/lib/esp32_log_source.c:55-91 | a line that is parsed is a level, a time, a tag and a text in the ESP-IDF form |
| Esp32LogSource.WrittenIsParsed | modules/esp32-log-source/lib/esp32_log_source.c:55-91 | and every line of that form is parsed as what it says |
| Esp32LogSource.PartsAreText | modules/esp32-log-source/lib/esp32_log_source.c:55-91 | the parts of a clean line are themselves text |
| Esp32LogSource.Assembler.OneByte | modules/esp32-log-source/lib/esp32_log_source.c:319-370 | feed_byte() on the assembler's fields is the model's step |
| Esp32LogSource.Assembler.Feed | modules/esp32-log-source/lib/esp32_log_source.c:372-383 | so is a buffer of them |
| Esp32LogSource.ParseEspIdf | modules/esp32-log-source/lib/esp32_log_source.c:55-91 | the two loops of the parser |
| EspImage.WalkAcceptsImages | modules/firmware-store/lib/fw_image.c:181-331 | the walk ends at a place exactly if the bytes up to it are an ESP-IDF image of its grammar, checksum and digest included |
| FwImage.CheckAcceptsTables | modules/firmware-store/lib/fw_image.c:370-420 | the table check accepts exactly the tables of entries, MD5 record and erased rest, and says whether the layout is the known one |
| FwGrammar.AcceptsExactlyImages | modules/firmware-store/lib/fw_image.c:445-562 | a file passes, but perhaps for its layout, exactly if it is a bootloader, an erased gap, a partition table with its digest, erased flash and an application that ends with the file |
| FwGrammar.SaysWhatItIs | modules/firmware-store/lib/fw_image.c:519-562 | of such a file: the result by its layout, the texts of its description, the sizes and the digest |
| FwGrammar.ShortIsInvalid | modules/firmware-store/lib/fw_image.c:519-562 | a file that is cut short never passes |
| FwDigest.AcceptsExactlyMd5Images | modules/firmware-store/lib/fw_image.c:370-420 | the same theorem with the digest of RFC 1321 in the record |
| FwImageCheck.TwoCuts | modules/firmware-store/lib/fw_image.c:445-504 | two ways of cutting a file into pieces give the same result, message and info |
| FwImageCheck.CheckPieces | modules/firmware-store/lib/fw_image.c:445-562 | the check of a file in pieces, on the program's buffers, is the byte-by-byte check of the whole |
| FwImageCheck.Walker.WalkFeed | modules/firmware-store/lib/fw_image.c:274-331 | walk_feed() on its 32 and 176 bytes, however much it is given |
| FwImageCheck.Walker.WalkNext | modules/firmware-store/lib/fw_image.c:181-271 | walk_next(), past every empty span |
| FwImageCheck.CheckPartitions | modules/firmware-store/lib/fw_image.c:370-420 | the loop over the table |
| FwImageCheck.Checker.FeedBytes | modules/firmware-store/lib/fw_image.c:445-504 | one call of the feed |
| FwImageCheck.Checker.Finish | modules/firmware-store/lib/fw_image.c:519-562 | the end of the check |
| FwImageCheck.CopyText | modules/firmware-store/lib/fw_image.c:136-152 | a field of text: printable up to its NUL, or refused |
| Md5.TurnsAreOperations | modules/firmware-store/lib/fw_md5.c:36-79 | the 64 turns with their index arithmetic are the operations of sections 3.4 and 3.5 of RFC 1321 |
| Md5.IndexIsWordAt | modules/firmware-store/lib/fw_md5.c:36-79 | the index formula of each round is the order of the standard |
| Md5.BlocksConcat | modules/firmware-store/lib/fw_md5.c:91-109 | compression of a message is that of its parts in turn |
| Md5.Context.Update | modules/firmware-store/lib/fw_md5.c:91-109 | any way of splitting a message into updates |
| Md5.Context.Final | modules/firmware-store/lib/fw_md5.c:111-132 | the digest of the whole message; the padding loop ends by a measure modulo 64 |
| Md5.Md5Of | modules/firmware-store/lib/fw_md5.c:134-141 | the whole: the digest of sections 3.1 to 3.5 |
| IpText.ParsesExactlyAddresses | modules/api-validation/lib/api_validation.c:564-672 | the parser gives an address exactly for its text forms of section 2.2 of RFC 4291, with the bytes they denote |
| IpText.OctetsAreDotted | modules/api-validation/lib/api_validation.c:496-529 | and an IPv4 address exactly for its dotted text without leading zeros |
| IpText.OctetIsDecimal | modules/api-validation/lib/api_validation.c:467-494 | one octet: the decimal text of a byte |
| IpParser.ParseIpv6 | modules/api-validation/lib/api_validation.c:564-672 | the loop over two arrays of 16 bytes accepts exactly those forms, and writes past no end |
| IpParser.ParseIpv4 | modules/api-validation/lib/api_validation.c:496-529 | the loop over four octets |
| IpParser.ParseHexGroup | modules/api-validation/lib/api_validation.c:532-562 | up to four hex digits |
| FirmwareSafety.NextKeeps | modules/firmware-store/lib/firmware_store.c:330-384 | the invariant of the two files, the RAM and the worker is kept by every operation, with every file operation failing or the last before a power cut |
| FirmwareSafety.EveryRunKeepsItsBytes | modules/firmware-store/lib/firmware_store.c:652-729 | in every run, as far as the data file goes, the bytes a record counts are this upload's chunks in order, never another upload's; a ready record is of bytes that passed |
| FirmwareBytes.FirstBytesAreTheChunks | modules/firmware-store/lib/firmware_store.c:652-729 | the file has all the bytes that the record counts, and a ready upload is exactly the bytes that passed, if and only if no removal has stopped half-way since the last start |
| FirmwareBytes.EveryStep | modules/firmware-store/lib/firmware_store.c:229-236 | in one step: a file that lacks nothing comes to lack something exactly by a removal whose data unlink took effect and whose record stayed; one that does goes on until a start, a new record or none mends it |
| FirmwareBytes.HalfRemovedUploadHasNoBytes | modules/firmware-store/lib/firmware_store.c:862-878 | a run in which a delete unlinks the data and not the record, which goes on counting bytes that are in no file |
| FirmwareSafety.ReadyAfterStart | modules/firmware-store/lib/firmware_store.c:330-384 | after a start that succeeded, a ready upload is there, whole, and a flash image of the known layout with the declared size and digest |
| FirmwareSafety.VerdictIsExact | modules/firmware-store/lib/firmware_store.c:772-860 | a check whose record is written makes the upload ready exactly if its file is that image |
| FirmwareSafety.ReaderReadsWhatPassed | modules/firmware-store/lib/firmware_store.c:922-946 | while the image is open for reading, the file is the one that passed |
| FirmwareSafety.BusyIsLeftAlone | modules/firmware-store/lib/firmware_store.c:600-632 | an upload that is in use, pending, checked or read is changed by no request |
| FirmwareSafety.OnlyNamedChunksCount | modules/firmware-store/lib/firmware_store.c:690-729 | an upload grows only by the accepted chunk at its end, once its record is written |
| FirmwareSafety.RunIsDurable | modules/firmware-store/lib/firmware_store.c:690-729 | without a removal, no failure and no power cut loses a chunk whose record was written |
| FirmwareFile.File.WriteChunk | modules/firmware-store/lib/firmware_store.c:652-688 | the file operations of a chunk: what is in front of it always stays, and success is exactly the chunk behind it |
| FirmwareFile.File.WriteAll | modules/firmware-store/lib/firmware_store.c:127-143 | short writes: success is all of the data |
| FirmwareFile.File.TruncateTo | modules/firmware-store/lib/firmware_store.c:210-227 | truncation, or the file as it was |
| FirmwareFile.MetaPair.WriteRecord | modules/firmware-store/lib/firmware_store.c:145-179 | the whole record takes the name, or the old one keeps it |
| FirmwareStore.Store.Init | modules/firmware-store/lib/firmware_store.c:330-384 | recovery on the store's own state |
| FirmwareStore.Store.Create | modules/firmware-store/lib/firmware_store.c:504-564 | a new upload in the place of none or of a failed one |
| FirmwareStore.Store.ChunkAccept | modules/firmware-store/lib/firmware_store.c:600-632 | a chunk is taken exactly where the last one ended |
| FirmwareStore.Store.CommitFiles | modules/firmware-store/lib/firmware_store.c:690-720 | data, then the record that names it, or neither |
| FirmwareStore.ReadAndCheck | modules/firmware-store/lib/firmware_store.c:794-822 | the reading loop of the check: whatever the reads give, the check of the file |
| FirmwareStore.Store.Verify | modules/firmware-store/lib/firmware_store.c:772-860 | the whole check, its abandonments included |
| UpdaterSafety.NextKeeps | modules/coprocessor-updater/lib/coprocessor_updater.c:320-529 | the invariant of an install (journal, job, what is open, what is written) is kept by every step of the run, every request and every power cut |
| UpdaterOutcome.BeginIsBeyondCancel | modules/coprocessor-updater/lib/coprocessor_updater.c:385-398 | the loader's begin is called only on a running job that no later sequence of creations, cancellations and calls on other jobs changes |
| UpdaterOutcome.TouchedIsNeverCancelled | modules/coprocessor-updater/lib/coprocessor_updater.c:385-398 | a touched chip and a cancelled job never go together |
| UpdaterOutcome.OutcomeIsTheJobs | modules/coprocessor-updater/lib/coprocessor_updater.c:491-529 | what the last update says is what the job says, recovery exactly if the chip was touched, success only when all was written and verified |
| UpdaterOutcome.FailsUnlessCancelled | modules/coprocessor-updater/lib/coprocessor_updater.c:500-519 | a failing run fails its job exactly unless a cancel came after its last look |
| UpdaterOutcome.CancelledButFailed | modules/coprocessor-updater/lib/coprocessor_updater.c:297-302 | a run where one does: the job is cancelled, the last update says failed |
| UpdaterOutcome.ClosedExactlyOnce | modules/coprocessor-updater/lib/coprocessor_updater.c:320-529 | in every run that is over, the image and the loader were opened at most once and closed as often |
| UpdaterOutcome.RestartAsksForRecovery | modules/coprocessor-updater/lib/coprocessor_updater.c:139-158 | with the power going after begin was called, the restart reports this install interrupted and to be recovered from exactly if a save at begin or later had reached storage; and so does every later restart |
| UpdaterOutcome.RestartReportsAccepted | modules/coprocessor-updater/lib/coprocessor_updater.c:139-158 | with saves that succeed: between acceptance and end the restart reports the install interrupted exactly unless the last save of an earlier run came after its own; and asks for recovery whenever the chip was touched |
| UpdaterOutcome.PatientIsNeverOverwritten | modules/coprocessor-updater/lib/coprocessor_updater.c:187-233 | that never happens when no install is asked for between the end of a run and its last save |
| UpdaterOutcome.LostSaveHidesErasure | modules/coprocessor-updater/lib/coprocessor_updater.c:91-99 | a run where the save at begin fails: the erasing starts and a restart asks for no recovery |
| UpdaterOutcome.LateSaveOverwrites | modules/coprocessor-updater/lib/coprocessor_updater.c:304-318 | a run without a failed save where a restart reports nothing of an accepted install |
| UpdaterRun.Install.RunInstall | modules/coprocessor-updater/lib/coprocessor_updater.c:320-529 | the run itself, with other threads at the jobs between its calls, is a run of the model; a success is the image, padded, on the chip in its one blocking, for every image and every sequence of short reads |
| UpdaterRun.Install.WriteAll | modules/coprocessor-updater/lib/coprocessor_updater.c:405-433 | the write loop gives the loader the image, however short the reads are |
| UpdaterRun.Install.EnterPhase | modules/coprocessor-updater/lib/coprocessor_updater.c:261-280 | the journal names a phase before any of its work |
| EspLoader.OneWayToBlock | modules/esp-loader-adapter/lib/esp_loader_adapter.c:219-247 | there is one way to cut bytes into full blocks and a last one, and the adapter's is it |
| EspLoader.Adapter.Write | modules/esp-loader-adapter/lib/esp_loader_adapter.c:219-247 | any sizes of writes: what was sent and what waits are what was given |
| EspLoader.Adapter.Finish | modules/esp-loader-adapter/lib/esp_loader_adapter.c:249-291 | success is exactly the padded image in its blocking, announced as such; the padding fits the open block |
| EspLoader.AnnouncedIsSent | modules/esp-loader-adapter/lib/esp_loader_adapter.c:178-203 | the ROM was told to expect what it is sent if and only if the size is at most 2^32 - 4; fewer than four 0xFF bytes follow the image, to a multiple of four |
| EspLoader.TakenIsGivenBack | modules/esp-loader-adapter/lib/esp_loader_adapter.c:68-99 | calls in order: every UART taken is handed back once, every port taken up is taken down, but for a session still open |
| EspLoader.Adapter.Teardown | modules/esp-loader-adapter/lib/esp_loader_adapter.c:68-99 | all of the clean-up, in order, whatever failed |
| EspLoader.Adapter.Open | modules/esp-loader-adapter/lib/esp_loader_adapter.c:101-176 | a session, or everything as before |
| EspLoader.Adapter.Close | modules/esp-loader-adapter/lib/esp_loader_adapter.c:293-299 | nothing for a session that is already gone |

## Left out

- Network scans, DNS refresh, default route, Wi-Fi rejoin and backoff: no part of what is pushed or committed.
- Validation of a configuration, the health check and the answers of the hardware are parameters of the steps.
- Transaction, job and upload ids are numbers that grow without bound: their text, random part and 32-bit wrap-around are not modelled, and an id is never used twice.
- A call of the job manager is one step together with the locked section that makes it; job phases and progress are left out.
- `device_config_store`: the CRC and the schema are abstract (a torn, foreign or newer record is Unreadable), and migration of older schemas is left out.
- `ByteRing.Ring`: assumes a ring of at least one maximal record, which the code does not assert, and positions that do not reach 2^64.
- `LogCursor.CursorIsCanonical`: says nothing of who made a cursor; the check sum is no signature.
- Filter matching of log texts is an arbitrary predicate, and the digest of a filter is a parameter of the cursor.
- Statistics, lock timing, loss counters and panic-time switching of the log store.
- `EspImage`, `FwImage`: SHA-256 is an arbitrary function of the bytes, as is the MD5 in the grammar (`FwDigest` puts the real one in); failures of the crypto driver are left out.
- `Md5.Md5Of`: the secret-wiping of the context.
- `FirmwareFiles`: file names, the clock of the expiry, the active job's label, and the removal of stray files but for whether it failed; `fw_store_chunk_discard()` during a commit and a second `fw_store_init()` are outside the callers' contract.
- `FirmwareStore.Store.Init`: an unlink or rename is taken at its word unless the power goes.
- `FirmwareStore.Store`: the worker's calls do not overlap, and the writing of the record is one operation there (`FirmwareFile.MetaPair.WriteRecord` has its parts).
- `Updater`: times are an answer "late" of each step, the wait for the console's early sign changes nothing, and only the error's place, not its text, is kept.
- `Updater`: `coprocessor_updater_init()` is called once a boot, and an install's job is its own, queued or cancelled when it is handed over.
- `UpdaterRun.Install.RunInstall`: has no power cuts inside it; `UpdaterSafety` and `UpdaterOutcome` have them at every step.
- `EspLoader`: the bytes on the line, the baud rates and the ROM's answers are outcomes of each call.
- Hardware, board files, shells, HTTP and MQTT glue, JSON rendering, wire names, secret wiping and logging.
- NULL arguments, which the source refuses at the top of its calls.
