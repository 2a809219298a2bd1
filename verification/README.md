# Verified model of nxs-backup

nxs-backup decides which backups live where and which are deleted. This project models that
decision and the parts of the program it rests on, and proves what they promise for every input,
every run and every interleaving.

**Rotation (Calendar, Paths, Schedule, RotatedObjects, BackupTree, LocalDelivery, LocalStorage,
CopyStore, Expiry, RotationRuns, RotationMisfit, RotationNames, RetentionModes, CountedArchives,
RotationExamples, JobRuns).** On a day that is several kinds of backup day at once, local storage keeps
one real file and symbolic links to it; remote storages keep plain copies. `BackupTree` is the tree of
one backup target as a map from a period and a name to a file or a link, with the loop that deletes
files, moves them onto kept links and re-points links, in any order of the Go map.
`LocalStorage.Local` and `CopyStore.Sftp` are the storage objects, running the source's own loops.
`JobRuns.Perform` calls them in the order of the source's `Perform`, and every call is a step of the
histories in `RotationRuns`, about which the central theorem speaks: the link tree, read through its
links, has the names, the contents and the ages in days of the plain copy store after every run of
every gapless history (with one run a day when retention is by count), and no rotation reports an
error, if and only if the retention numbers satisfy `RotationRuns.FitsWithinCycle`, a condition on
`Days`, `Weeks`, `Months` and the 4800 months after which the calendar repeats, which can be evaluated
before the first run. For names and contents alone the weaker `RotationRuns.NamesFitWithinCycle` is
exact.

**Delivery (Delivery).** The `Delivered` flags, retries, deferred and immediate copying, and where the
temporary file is at each delivery.

**FTP client (Texts, FtpControl, FtpRemoval, FtpWalker, FtpScanner, FtpTime, FtpListing,
FtpForeignListing, FtpMachineListing).** The control channel against a queue of numbered replies, with the order of the
commands; recursive removal against a server with a tree and a current directory; the walk with an
explicit stack; and the listing parsers with their guess of the year.

**Notifications (Notifier).** The message buffer and all interleavings of the routine that fills it
with the goroutines that flush it.

Each imperative member of the source is a method (on a class where it updates fields) proved equal to a
specification function, or to a state predicate; the lemmas then speak about that function.

## What the proofs found

- **Weeks against months.** When a monthly file outlived by its weekly link is rotated on a day
  that is not a Sunday, the weekly directory is not scanned, the link is not seen, and it is left
  dangling. `RotationMisfit.RefinementIff` gives the exact condition; `Weeks <= 4 * Months`
  suffices, and already `Weeks = 5, Months = 1` fails (`RotationMisfit.FiveWeeksMisfit`). The next
  rotations cope with the dangling link (`BackupTree.LoopKeepsShape`).
- **The loop that stops.** When a kept weekly link has no daily link beside it, `os.Remove("")` fails
  and the loop ends; files later in the order stay (`BackupTree.StuckLeavesOthers`). So on 1 March 2026
  with `Days = 7, Weeks = 5, Months = 1` (`RotationExamples.LoopStops`, on a tree written out by hand).
- **More than the count.** By count, a file that stops the loop can leave a directory with more archives
  than `count`. From empty storages, with `Weeks = 4, Months = 1` and rotation first, five runs on one
  Sunday the 1st can leave five weekly archives on local storage and four on a copy store
  (`RotationExamples.FifthRun`), although the numbers fit: agreement by count is promised for one run a
  day. `CountedArchives.LocalBoundIff` says exactly when a run keeps to the count in every order.
- **A fresh link time.** A re-pointed daily link gets the current time, so that it expires later than
  the copy it stands for. `RotationRuns.Agree` therefore compares the day of modification as well as
  the content: it decides what later rotations delete. With `Days = 30, Weeks = 5, Months = 1` the
  daily copy of 1 February 2026 goes on 3 March, the link does not
  (`RotationExamples.FreshLinkOutlivesCopy`, written out by hand; `RotationNames.LinkOutstaysHistory` has
  the histories).
- **A retry that truncates.** A local delivery that renamed the temporary file and then failed to make
  a link counts as failed. If it is tried again, the copy fallback truncates the only copy before it
  finds its source missing. `LocalDelivery.RetryKeepsBackupIff` says exactly when the backup survives,
  `LocalDelivery.RetryTruncates` shows a Sunday's backup lost.
- **Link names.** An `ls -l` link whose name ends in ` ->` is split at the wrong arrow;
  `FtpListing.LinkRoundTripIff` gives the exact condition, `FtpListing.ArrowNameLost` the link `a ->`.
- **Listings claimed by the wrong parser.** A `dir` line with a ten-character date and a name of five
  or more words has the eight columns of an `ls` line, is claimed by that parser and refused as an
  unknown entry type, so that the `dir` parser never sees it (`FtpForeignListing.DirRoundTripIff`);
  `FtpForeignListing.DirLineClaimed` is such a line. A hosted line with a numeric owner is claimed
  likewise (`FtpForeignListing.HostedRoundTripIff`, `FtpForeignListing.HostedLineClaimed`).
- **A reply left unread.** When the shutdown deadline cannot be set, the closing reply of a transfer
  stays in the channel, and the session is out of step (`FtpControl.Response.Close`); the next command
  reads it for its own (`FtpControl.UnreadReply`).
- **What safe rotation buys.** When a run delivers nothing, the rotation that came first has kept one
  archive less (`RetentionModes.FailedRunKeeps`).

## Model

| member | source | states |
|---|---|---|
| Schedule.SchedulesAgree | modules/storage/common.go:48-149 | on every date and for every non-negative retention the four copies of the schedule agree: a backup is needed iff some period is due, a period is due iff its retention count is positive iff its directory is scanned, and due periods come highest first |
| Schedule.GetBackupDstList | modules/storage/common.go:132-149 | the destinations are exactly the due periods' paths, in order |
| Schedule.GetBackupDstAndLinks | modules/storage/common.go:87-130 | the file goes to the highest due period, exactly the other due periods get a link, and each relative link text joined to its directory leads to the file |
| Paths.RelLeadsToTarget | modules/storage/common.go:106-122 | a relative path computed between two clean paths, joined to its base, is the target |
| RotatedObjects.DGetRotatedObjects | modules/storage/common.go:166-209 | whatever order the directory is listed in, the chosen names are distinct; each is a stem and `.tar` or `.tar.gz`; by count they are all such names but the newest `count` (or `count - 1` when rotating first), by age exactly the `stem.tar` and `stem.tar.gz` before the date |
| RotatedObjects.EligibleAreArchives | modules/storage/common.go:169-174 | what may be deleted is exactly a stem followed by one of the two endings |
| RotatedObjects.SortByTime | modules/storage/common.go:180-182 | the sort yields an ordered permutation |
| LocalStorage.Local.MoveFile | modules/storage/local/local.go:275-283 | moving replaces the new name and drops the old one; it fails if either is missing, and has then already removed the new one |
| LocalStorage.RecordStep | modules/storage/local/local.go:142-164 | reading one more directory entry keeps the recorded links the exact inverse of the link relation on the names read so far |
| LocalStorage.ScanComplete | modules/storage/local/local.go:118-182 | after the scan the recorded weekly and daily links are the inverse of the link relation on the scanned directories, and the delete set is what the rotation rules choose in each of them |
| LocalStorage.Local.DeleteFile | modules/storage/local/local.go:184-234 | one pass of the loop body has the effect, the error count and the early stop of the specified iteration |
| LocalStorage.Local.DeleteDiscBackup | modules/storage/local/local.go:109-237 | scan and loop together carry out the delete loop on an admissible delete set in some order and keep the storage valid, dangling links included; an unreadable directory leaves the tree as it was and gives its error alone |
| LocalStorage.Local.DeleteOldBackups | modules/storage/local/local.go:100-107 | rotation happens only if it is enabled, and keeps the storage valid |
| LocalStorage.ChosenRotation | modules/storage/local/local.go:109-237 | on the delete set a rotation chooses, in any order: the shape is kept, every other name reads as before or is an unseen link left dangling, and there is no error iff no file is stuck, in which case exactly the delete set is gone |
| LocalStorage.Local.DeliverBackup | modules/storage/local/local.go:41-98 | rename or copy, then links in any order, with every failing call taken into account and the copy writing through a link at its destination, is the specified delivery; link texts resolve to the delivered file; the storage stays valid and ready for another attempt |
| LocalDelivery.DeliverySucceeds | modules/storage/local/local.go:41-98 | renamed, or copied to a destination that is no link, its links made in any order, an undisturbed delivery leaves one tree: the file in the highest due period and links to it in the others |
| LocalDelivery.DeliveredReads | modules/storage/local/local.go:84-95 | every due name, new or written over, reads as the backup, other names are unchanged, and the tree keeps its shape iff no link that stays leads to a name that has become a link |
| LocalDelivery.DeliveryKeepsShape | modules/storage/local/local.go:41-98 | whichever call fails, a delivery keeps the shape of the tree and leaves no link to a name that the next attempt turns into a link |
| LocalDelivery.FailedDeliveryKeepsTempIff | modules/storage/local/local.go:51-98 | a failed delivery leaves the temporary file iff the directory could not be made or the rename failed |
| LocalDelivery.OrderlyWithoutLinkFaults | modules/storage/local/local.go:51-98 | a delivery that fails without a link fault leaves the temporary file |
| LocalDelivery.DeliveryKeepsData | modules/storage/local/local.go:41-98 | whichever call fails, other names are untouched and the backup is still whole in the temporary file or at its destination |
| LocalDelivery.RetryKeepsBackupIff | modules/storage/local/local.go:54-98 | after a failed delivery a second attempt spares the backup if and only if the temporary file is still there or the attempt ends before the destination is truncated |
| LocalDelivery.RetryTruncates | modules/storage/local/local.go:59-95 | a concrete loss: weekly file renamed, daily link refused, second attempt leaves an empty file and no temporary one |
| BackupTree.LoopBoundary | modules/storage/local/local.go:184-234 | at every iteration boundary, after an early stop too and whatever links went unseen or dangle, the tree is the partial rotation of a prefix of the order, and the loop has stopped iff it met a file whose kept weekly link has no daily link |
| BackupTree.LoopKeepsShape | modules/storage/local/local.go:184-234 | for any delete set, order and early stop the tree keeps its shape, no name is added, none outside the delete set is lost, and each of these reads as before or is an unseen link left dangling |
| BackupTree.RotationKeepsOthers | modules/storage/local/local.go:184-234 | for any delete set, order and early stop, each name outside the delete set reads as before, if every link to a deleted file has been seen |
| BackupTree.RotationKeepsOthersIff | modules/storage/local/local.go:118-234 | that holds for all orders if and only if every link to a deleted file lies in a scanned directory |
| BackupTree.UnseenLinkDangles | modules/storage/local/local.go:118-234 | a link to a deleted file in a directory that was not scanned is left dangling |
| BackupTree.RotationExactIff | modules/storage/local/local.go:184-237 | no error is reported iff no deleted file has a kept weekly link without a daily link, and then every order gives the same tree, whose names are the old names minus the delete set and read as before but for unseen links |
| BackupTree.StuckLeavesOthers | modules/storage/local/local.go:197-201 | a file that stops the loop can leave any other deletion undone |
| CopyStore.Sftp.DeliverBackup | modules/storage/sftp/sftp.go:97-142 | uploads go to the due periods in order up to the first failure, each failure leaving what it had got to |
| CopyStore.UploadSucceeds | modules/storage/sftp/sftp.go:97-142 | without failures every due period gets the whole content and nothing else changes |
| CopyStore.UploadSucceedsIff | modules/storage/sftp/sftp.go:97-142 | an upload succeeds iff no due period has a fault |
| CopyStore.FirstFault | modules/storage/sftp/sftp.go:97-142 | after the first fault the periods before it have the backup, its own has the old copy, none, an empty one or what came through, and everything else is as it was |
| CopyStore.Sftp.DeleteDiscBackup | modules/storage/sftp/sftp.go:153-190 | exactly the names the rotation rules choose are removed, but for refused ones, and the errors count the refusals; a directory that cannot be read ends the rotation after those before it, with its error alone |
| CopyStore.Sftp.DeleteOldBackups | modules/storage/sftp/sftp.go:144-151 | rotation happens only if it is enabled |
| Expiry.ExpiryIsTheAgeTest | modules/storage/common.go:48-74 | on a gapless schedule the age test of a scanned directory finds exactly what expires today, and an unscanned directory has nothing to expire, month lengths included |
| Expiry.CountTest | modules/storage/common.go:178-196 | with exactly one run a day, counting finds the same names, rotating first or last, even if names that stay look younger than they are |
| Expiry.SlotsFilled | modules/storage/common.go:48-74 | with one run a day a stretch of due days holds one name each, so that only the oldest slot can be one too many |
| RotationRuns.WeeksWithinMonthsFit | modules/storage/common.go:54-70 | `Weeks <= 4 * Months` (or no monthly copies) implies the condition for agreement, since months last at least 28 days |
| RotationRuns.FitsIff | modules/storage/common.go:54-70 | the condition for agreement holds for all months iff it holds for the 4800 of one calendar cycle |
| RotationRuns.RotationSafe | modules/storage/local/local.go:118-234 | on a tree that follows the schedule and under the condition for names, every link to an expiring file is scanned and no file stops the loop |
| RotationRuns.RotatedIs | modules/storage/local/local.go:184-234 | rotation takes the tree of the schedule on one day to the tree of the schedule on the next: wanted names only, the content in the highest wanted period, links below, and dates that change just where a daily link is re-pointed |
| RotationRuns.OneRun | modules/backup/backup.go:15-77 | one run, rotating first or last, keeps both storages on the schedule and reports no rotation error |
| RotationRuns.HistoryFollowsSchedule | modules/backup/backup.go:15-77 | after each run of a gapless history both storages hold exactly the wanted copies, as long as the condition holds for the months past |
| RotationRuns.LocalRefinesCopies | modules/storage/local/local.go:109-237 | the link tree, read through its links, has the names, contents and ages in days of the plain copy store after every run of every history (at least one run a day by age, one a day by count), with no rotation error |
| RotationRuns.LocalHoldsBackups | modules/storage/local/local.go:109-237 | under the weaker condition names and contents agree after every run of the same histories, with no rotation error |
| RotationMisfit.LastRunDisagrees | modules/storage/local/local.go:184-234 | when a month misses the condition, the run that ends its monthly file makes the storages differ or the rotation fail |
| RotationMisfit.MisfitDisagrees | modules/storage/local/local.go:109-237 | such a month has a history of one run a day on which names, contents or ages part or a rotation reports an error |
| RotationMisfit.RefinementIff | modules/storage/local/local.go:109-237 | by age and by count, the two storages agree in names, contents and ages without rotation errors on all gapless histories (by count, of one run a day) if and only if the retention numbers satisfy the condition on one calendar cycle |
| RotationMisfit.FiveWeeksMisfit | modules/storage/common.go:57-70 | five weeks with one month miss it: September 2024 began on a Sunday and lasted 30 days |
| RotationNames.LinkOutstays | modules/storage/local/local.go:200-206 | a re-pointed daily link that is due before its weekly file, or with it, stays when its copy goes, by age and by count |
| RotationNames.NamesIff | modules/storage/local/local.go:109-237 | by age and by count, the two storages agree in names and contents without rotation errors on all those histories if and only if the retention numbers satisfy the weaker condition on one calendar cycle |
| RotationExamples.LoopStops | modules/storage/local/local.go:184-206 | on 1 March 2026, with seven days, five weeks and one month, the loop stops at the February file and leaves another file it should delete |
| RotationExamples.FreshLinkOutlivesCopy | modules/storage/local/local.go:200-206 | with thirty days the daily link re-pointed on 1 March 2026 stays on 3 March, when the daily copy goes |
| RetentionModes.CopiesFollowSchedule | modules/storage/sftp/sftp.go:153-190 | the copy store follows the schedule for every retention, without any condition |
| RetentionModes.KeptCopies | modules/storage/common.go:48-74 | after each run `daily` holds the last `Days` days, `weekly` the last `Weeks` Sundays and `monthly` the last `Months` firsts, with their contents |
| RetentionModes.ModesCoincide | modules/storage/common.go:178-207 | with one run a day age and count keep the same copies, in either rotation order |
| RetentionModes.OrdersAgree | modules/storage/common.go:178-196 | by count, on a directory that loses the chosen names, deliver-then-rotate and rotate-then-deliver end with the same files: the newest min(n + 1, count) archives and everything that is no archive |
| RetentionModes.CountedChoice | modules/storage/common.go:178-193 | with distinct times counting leaves no choice of what to delete |
| RetentionModes.FailedRunKeeps | modules/storage/common.go:184-193 | when nothing is delivered, min(n, count) archives stay if the rotation came last and min(n, count - 1) if it came first |
| CountedArchives.CopiesCounted | modules/storage/common.go:178-196 | over any runs by count, several a day or with days left out and in any rotation order, each directory of a copy store holds min(archives given, count) archives after every run |
| CountedArchives.CopiesKeepNewest | modules/storage/sftp/sftp.go:153-190 | and if later runs upload later, exactly the newest ones, with their contents and times |
| CountedArchives.LocalCounted | modules/storage/local/local.go:109-237 | on local storage the same number is there after every run as long as no rotation reports an error |
| CountedArchives.LocalBoundIff | modules/storage/local/local.go:184-234 | one run on local storage ends with min(n + 1, count) archives in every due directory for every order of the loop if and only if no stuck file is deleted together with another |
| BackupTree.AllOrdersDeleteIff | modules/storage/local/local.go:184-234 | every order deletes exactly the delete set if and only if no stuck file has company |
| RotationExamples.FifthRun | modules/storage/local/local.go:184-206 | a history of five runs by count after which local storage has five weekly archives where four are to be kept |
| JobRuns.DoBackup | modules/backup/disc_files/disc_files.go:205-272 | a dump goes to the remote storage and then to the local one, and both receive it in every due period |
| JobRuns.Perform | modules/backup/backup.go:15-77 | a run over the two storage objects, rotating first or last as configured, keeps the local storage valid and is a step of the histories with the same number of rotation errors; without a temporary directory only a rotation that comes first has happened; a storage whose rotation is off only receives |
| JobRuns.Operate | modules/backup/backup.go:15-77 | driving the two storage objects over any number of days, whatever the retention numbers, yields such a history and counts its errors; if the numbers satisfy the condition they agree after every day and no rotation fails |
| Delivery.LocalLastIff | interfaces/storage.go:35-37 | no storage follows a local one iff the storages are ordered by `Less` and at most one is local |
| Delivery.RecordAfterRound | interfaces/storage.go:63-86 | offering an undelivered object to all storages keeps its record true: retried only after refusal by all, delivered iff someone accepted, the metric that of the last round |
| Delivery.LogRound | interfaces/storage.go:63-86 | the calls made for an object are those of its rounds, each storage once and in order, and a round for one object adds none for another |
| Delivery.Job.Offer | interfaces/storage.go:67-77 | one round calls every storage once, in order; with the local storage last and failed local deliveries leaving the file, no storage is offered a missing file, and the file is gone afterwards only if someone accepted it |
| Delivery.Job.Delivery | interfaces/storage.go:60-89 | every undelivered object gets exactly one more round, delivered ones none and they stay delivered; the errors are the refusals among the calls it makes |
| Delivery.Job.BackupTarget | modules/backup/disc_files/disc_files.go:208-264 | a dump that fails is one error; one that succeeds is offered at once, with all that is still undelivered, unless copying is deferred |
| Delivery.Job.DoBackup | modules/backup/disc_files/disc_files.go:205-272 | exactly the targets whose dump succeeds are offered; deferred copying offers each once, immediate copying again at the end unless it was delivered; each is retried only while all storages have refused it, and delivered iff one accepted; storages that do not fail are called exactly once for it; the errors are the failed dumps and the refused calls, none iff there are neither; with the local storage last and failed local deliveries leaving the file, it is there at every delivery |
| FtpControl.ServerConn.Cmd | lib/ftp/ftp.go:602-611 | the reply read is the command's own, and none is left |
| FtpControl.ServerConn.CmdDataConnFrom | lib/ftp/ftp.go:613-653 | the commands sent are those of the plan (PRET, EPSV or PASV, REST, transfer) up to the one refused; it succeeds iff the server's answers and the dialing allow it; a started transfer leaves one reply and one open connection, a refused one neither |
| FtpControl.ServerConn.GetDataConnPort | lib/ftp/ftp.go:551-562 | EPSV is tried unless disabled or once failed, PASV otherwise, and a failure of EPSV is remembered |
| FtpControl.ServerConn.Rename | lib/ftp/ftp.go:1008-1016 | the second command is sent only after the first was accepted, and the call succeeds iff both were |
| FtpControl.ServerConn.List | lib/ftp/ftp.go:692-737 | a listing ends with nothing unread and its connection closed once, unless the deadline cannot be set, and succeeds iff it started, was read to its end and got the server's 226 |
| FtpControl.ServerConn.StorFrom | lib/ftp/ftp.go:939-978 | an upload ends so too, whether or not the copy succeeded |
| FtpControl.Response.Close | lib/ftp/ftp.go:1131-1148 | the first close ends the transfer, and the session is idle again iff the deadline could be set; later closes change nothing |
| FtpControl.UnreadReply | lib/ftp/ftp.go:923-936 | after a deadline that cannot be set the next command, accepted by the server, reads the transfer's 226 and fails |
| FtpControl.Session | lib/ftp/ftp.go:602-1148 | over any sequence of calls, accepted or refused, each transfer closed at least once, replies stay in step, every data connection is closed exactly once, and the commands follow each other as RFC 959 wants; only a deadline that cannot be set ends the session, exactly one reply behind |
| FtpRemoval.ChildPath | lib/ftp/ftp.go:1047 | the path built for a subdirectory names that child for the server, below the root too |
| FtpRemoval.RenderSplits | lib/ftp/ftp.go:818-833 | a reported path, split and cleaned, is the directory it reports, the root included |
| FtpRemoval.AllCleared | lib/ftp/ftp.go:1042-1056 | once every listed child is gone with all below it, the directory is empty and nothing outside it has changed |
| FtpRemoval.FileRemoval | lib/ftp/ftp.go:1050-1054 | a file or link is a subtree of its own |
| FtpRemoval.Remote.RemoveEntry | lib/ftp/ftp.go:1042-1056 | each recursive call returns the server to the caller's directory, so that the relative deletion hits the right file |
| FtpRemoval.Remote.RemoveDirRecur | lib/ftp/ftp.go:1027-1063 | removal terminates; on success exactly the subtree is gone, the server stands at its parent and the control channel is in step; on failure nothing outside the subtree has changed, and the channel is out of step only if a deadline could not be set; with an obliging server it succeeds iff the directory is not the root |
| FtpWalker.Walker.Next | lib/ftp/walker.go:25-71 | each call shows the head of the recursive traversal that is still pending and leaves its tail; a directory that cannot be listed ends the walk |
| FtpWalker.Walker.SkipDir | lib/ftp/walker.go:75-77 | skipping drops exactly the current entry's subtree from what is pending |
| FtpWalker.WalkAll | lib/ftp/walker.go:25-71 | calling `Next` until it ends terminates and shows the whole recursive traversal |
| FtpWalker.InsideOnce | lib/ftp/walker.go:25-71 | that traversal shows every entry below the root exactly once and nothing else |
| FtpWalker.DotsNotShown | lib/ftp/walker.go:45-48 | no path shown has a step `.` or `..` |
| FtpWalker.OthersShown | lib/ftp/walker.go:45-57 | every entry of the root or of a folder shown that is named neither `.` nor `..` is shown |
| FtpWalker.VisitsOfPush | lib/ftp/walker.go:44-57 | what is pushed last is visited first, before what was on the stack |
| FtpScanner.Scanner.NextFields | lib/ftp/scanner.go:17-27 | the scanner's loops draw the specified fields and leave the position after the last one's single space |
| FtpScanner.FieldsOfPadded | lib/ftp/scanner.go:17-58 | fields printed with any padding come back, and the remainder keeps its own spaces |
| FtpListing.ParseLsListLine | lib/ftp/parse.go:86-165 | the scanner-driven parser has the branches and outcomes of its specification |
| FtpListing.ParseDirListLine | lib/ftp/parse.go:169-207 | the loop over the time formats stops at the first that reads the line's head |
| FtpListing.ParseHostedFTPLine | lib/ftp/parse.go:213-228 | a line with link count zero is handed to the `ls` parser with the count mended and the rest as it stood |
| FtpListing.LsRoundTrip | lib/ftp/parse.go:86-240 | an `ls -l` line with any padding, link count and size parses, through all parsers in turn, to the type, name, target and size printed, with the time read from its columns |
| FtpListing.LinkRoundTripIff | lib/ftp/parse.go:151-155 | a printed link comes back if and only if its name is not empty and no arrow occurs before the printed one |
| FtpListing.ArrowNameLost | lib/ftp/parse.go:151-155 | a link named `a ->` to `b` comes back named `a`, to `-> b` |
| FtpForeignListing.ColumnsCounted | lib/ftp/parse.go:95-135 | the `ls` parser finds its eight columns in a `dir` line iff the name has five words |
| FtpForeignListing.DirRoundTripIff | lib/ftp/parse.go:169-240 | a `dir` line for a file or a directory comes back through all parsers in turn, if and only if not both its date has ten characters and its name at least five words; otherwise it fails as an unknown `ls` entry |
| FtpForeignListing.DirLineClaimed | lib/ftp/parse.go:86-240 | the line of a directory `a b c d e` with an ISO date fails as an unknown `ls` entry, although the `dir` parser reads it |
| FtpForeignListing.DatedDirRoundTripIff | lib/ftp/parse.go:169-240 | a `dir` line with a date in any of the four formats comes back with that date, with the same exception |
| FtpForeignListing.HeadsTellApart | lib/ftp/parse.go:24-29 | each of the four formats prints different times differently (two-digit years within 1969 to 2068), so reading them back is possible |
| FtpForeignListing.FormatFound | lib/ftp/parse.go:24-29 | the loop over the formats ends at the one that printed the line and takes just its length |
| FtpForeignListing.FolderRoundTrip | lib/ftp/parse.go:102-112 | a line with `folder 0` comes back as a folder of its name and date |
| FtpForeignListing.FileRoundTrip | lib/ftp/parse.go:114-129 | a line with link count zero and its size in the next column comes back as a file of its name, size and date |
| FtpForeignListing.HostedRoundTrip | lib/ftp/parse.go:209-240 | an `ls` line with link count zero and an owner that is no number reads like its counterpart with one link |
| FtpForeignListing.HostedRoundTripIff | lib/ftp/parse.go:86-240 | such a line with readable times comes back as printed iff its owner does not read as a number |
| FtpForeignListing.NumericOwner | lib/ftp/parse.go:114-129 | with a numeric owner the line is taken as one of the `ls` parser's own: the owner is the size, and the clock part of the name |
| FtpForeignListing.HostedLineClaimed | lib/ftp/parse.go:114-129 | the line of a hosted file of the owner 500 fails for its date |
| FtpListing.RecentRoundTrip | lib/ftp/parse.go:86-268 | a line printed for a time of the last six months comes back with that time, year included |
| FtpListing.DatedRoundTrip | lib/ftp/parse.go:86-275 | a line printed with the date and year of its entry comes back with that date, whatever the clock says |
| FtpListing.FactLineRead | lib/ftp/parse.go:36-82 | one fact line applies its facts in order under one name, or is declined for another name |
| FtpMachineListing.MlsdRoundTrip | lib/ftp/parse.go:36-82 | a printed line of facts, their keys in any letter case and others in between, comes back through all parsers in turn as the entry it describes: kind, size, time and name |
| FtpMachineListing.MlstRoundTrip | lib/ftp/ftp.go:742-792 | and so does the text of a reply with such a line |
| FtpMachineListing.BadFactDecides | lib/ftp/parse.go:52-80 | the first bad fact decides, whatever follows: without a key the line is no machine listing, with an unreadable size or time it is a broken one |
| FtpListing.GetEntry | lib/ftp/ftp.go:742-792 | the reply's inner lines are folded in order into one entry; fewer than three lines are no reply |
| FtpListing.EntryOfReply | lib/ftp/ftp.go:742-792 | a whole reply of a first line, fact lines of one name and a last line gives what one line with all the facts gives |
| FtpListing.FoldingIsConcatenation | lib/ftp/ftp.go:767-792 | on the text of the reply, facts spread over lines of one name give the same entry, or the same failure, as one line with all of them (section 7.2 of RFC 3659) |
| FtpTime.RecentTellsApart | lib/ftp/parse.go:248-251 | the columns of a recent time tell everything but the year: two times print alike iff they are one when put in the same year |
| FtpTime.YearRecoveredIff | lib/ftp/parse.go:247-268 | exactly which times come back when printed without their year |
| FtpTime.HalfYearRecovered | lib/ftp/parse.go:253-268 | every time of the six months up to now (by `AddDate` rules) is among them |
| FtpTime.DatedRecovered | lib/ftp/parse.go:269-275 | a date printed with its year comes back as its own midnight, whatever the clock says |
| FtpTime.LeapDayUnread | lib/ftp/parse.go:248-274 | 29 February is not read in a year that has none, neither with that year printed nor, without it, in the reader's own |
| FtpTime.YearlessBounded | lib/ftp/parse.go:265-267 | a yearless date that parses is before now plus six months, leap days included |
| Notifier.MessageBuffer.FilterAndStore | modules/notifier/message_buffer.go:54-73 | storing is the specified function of the buffer |
| Notifier.MessageBuffer.RetriveAndClear | modules/notifier/message_buffer.go:77-99 | the message is all held lines, in order, with line breaks between, or nothing if there are none or none is urgent enough; the job list is laid out likewise; the buffer is cleared |
| Notifier.JoinLaysOut | modules/notifier/message_buffer.go:80-92 | a joined text is its parts, in order, with the separator between them and nothing else |
| Notifier.JoinedLinesSplit | modules/notifier/message_buffer.go:92 | lines without line breaks can be told apart again in the message |
| Notifier.PassLevelIs | modules/notifier/message_buffer.go:34-39 | the buffer accepts information and everything more urgent, or down to the message level if that is lower |
| Notifier.LowestBounds | modules/notifier/message_buffer.go:62-64 | `lowest_level` is the minimum over the held lines |
| Notifier.JobsNamedOnce | modules/notifier/message_buffer.go:66-70 | the job list names each job of the held lines exactly once |
| Notifier.FlushSends | modules/notifier/message_buffer.go:77-99 | a flush empties the buffer and sends its lines, whole and in order, iff one of them meets the message level |
| Notifier.ExecutionsKeepInvariant | routines/notification/notification.go:15-58 | in every reachable state, over all interleavings, the accepted lines are those flushed followed by those held, and the buffer is what the held lines make it |
| Notifier.ReturnedMeansDrained | routines/notification/notification.go:34-38 | when `Runtime` returns the buffer is empty and the batches hold, once each and in order, exactly the events taken that passed the store filter |
| Notifier.ReturnedMeansFlushed | routines/notification/notification.go:26-53 | over all interleavings, exactly the flushes asked for have been made by then: one an event without combining, one a flush request with it, and a last one at the end |
| Notifier.NeverStuck | routines/notification/notification.go:19-41 | in every reachable state the routine takes whatever event comes or owes a flush first, and some step other than taking events brings the return nearer |
| Notifier.UrgentEventsAreSent | routines/notification/notification.go:15-58 | the line of every event taken that meets the message level is in a sent message when `Runtime` returns |
| Notifier.BatchesAreWhole | modules/notifier/message_buffer.go:77-99 | over all interleavings a batch is sent whole, every line in the message in order and every job in the list, if one of its events meets the message level, and dropped whole otherwise |

## Left out

- RotationMisfit.RefinementIff: by count it speaks about one run a day, since several move the counts away from the calendar (RotationExamples.FifthRun).
- RotationRuns.Agree: compares names, contents and the day of modification; the time of day is not compared, since the two storages stamp their files at different moments. RotationNames.NamesIff is about names and contents alone.
- CountedArchives.CopiesKeepNewest: with equal upload times Go's sort leaves open which archive goes; CountedArchives.CopiesCounted then still gives their number.
- RotationRuns.History: runs without I/O errors and within one day; a run that crosses midnight can read the clock on both sides of it, and failing calls are treated for single operations only (LocalDelivery, BackupTree, CopyStore, Delivery).
- JobRuns.Perform: one target, one local and one remote storage with the same retention; the early return for a job without storages is not modelled.
- JobRuns.DoBackup: one dump that succeeds, and deliveries that succeed, since it serves the error-free histories; the Delivered flag, retries and failing dumps are in Delivery.Job.DoBackup.
- JobRuns.Operate: rotation is switched on for both storages.
- LocalStorage.Local: a rotation meets no failing call on a path that exists; subdirectories and other special entries in a backup directory, and links that lead to another link or outside the three directories, do not occur, and a directory that is missing reads as empty.
- Schedule.GetRetention: a retention date that happens to be Go's zero time is not told apart; time zones and clock changes are not modelled, days having 24 hours.
- Delivery.Job: dumps and deliveries succeed or fail freely, and only the metric for success of delivery is kept; the other metrics are not part of the model.
- FtpControl.Session: it is not followed after a deadline that cannot be set, when the calls would read each other's replies; the connection itself does not break, closing a data connection does not fail, 110, 120 and malformed replies do not occur, and the texts of the replies, such as the port of EPSV and PASV, are not modelled; dialing, login, TLS and QUIT are left out.
- FtpRemoval.Remote: directory names carry no slash and no quotation mark, and the server reports absolute paths.
- FtpListing.ParseListLine: the dispatch over the four parsers, and the size and time fields an `Entry` is given, are on values; `time.ParseInLocation` and `strconv.ParseUint` are parameters with a specification, and lower-casing is that of ASCII letters.
- FtpTime.SetTime: the clock shows a year of four digits.
- Notifier.Execution: an action of the routine or of a flush is atomic, as the buffer's lock makes it; events still in the channel when the context ends are not taken, and what a send then does is left out.
- Object stores: the rotation of S3 tests other numbers for its monthly files and has no filter on names, so that the theorems do not carry over to it.
- SMB, NFS, WebDAV and FTP storage: they repeat the copy store.
- Database jobs: they repeat the loop of the file job.
- Signals, configuration, argument parsing, logging and metrics export: plumbing around the parts modelled.
