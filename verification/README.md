# HTTP Capture, modelled and proved in Dafny

HTTP Capture records the HTTP traffic of Android apps on a computer. A recording proxy appends one JSON
object per exchange to a growing file (`traffic.jsonl`); a command line tool starts and stops captures, also
on request of the phone; a local web page indexes the file while it grows, streams new rows to the browser,
filters them and exports them.

This project models the parts of it that carry state across files, processes and connections, and proves what
they promise:

- **The traffic index.** A stored cursor (device, inode, offset, line number, skipped count and the digests of two
  4096-byte windows) lets a rescan go on where the last one stopped. It is proved that after every rescan of every
  history (growing, replaced and removed files, edited ones as far as the windows reach, read failures, files that change
  between being looked at and being opened, the switch from the live file to the archive, other sessions' commits) the
  tables are those of one pass over the file, or the session is marked as failed; with rescans that die between their two
  writes, exactly when that holds. Requests that are indexed keep their ids while the file grows, and the session's error
  text tells how many of its lines are faulty.
- **The live event stream.** Connections tick while others commit. No id is ever sent twice, nothing that is still
  there is missed, idle ticks included; rows dropped from a session that stays are reported, whenever they came in, and
  no session is reported that was not reset.
- **The request list.** The filter is compiled to SQL text with arguments bound by position; an evaluator for
  that SQL gives back the filter, for every row. What the status, method and focus texts ask for is said from the texts.
- **Captures.** Start, stop, abandon and confirm over an active file and per-capture metadata, with processes that
  die between any two file operations, and the phone's command table: when a request is answered, what the answer means,
  and that its operation is done once.
- **The archive** cut out at stop, against what the live view showed, and the HAR file made from it.
- **Smaller algorithms**: the one-pass XML filter, the body-capturing reader, the paginated export, UTF-8 truncation,
  the cURL command line, the pairing reference.

Modules follow the program's files. Code that changes state step by step is a class or a method with loops, tied
by its `ensures` to a function of the old state; the theorems are about those functions.

## What the proofs show to be false, and when it holds

- **An interrupted rescan is not made up for at once.** The session's fingerprint is written before the scan commits
  (`cli/web_index.go:322-326`). After any history, with any number of rescans that died in between, a rescan that does not
  die leaves the session in agreement if and only if it finds a change against the stored fingerprint or the tables were
  right already (`TrafficAgreement.CutHistoryAgreesIff`): freshness is lost only until a rescan looks again. If the next
  rescan sees the same as the one that died, it looks again only when the cursor names another file or none
  (`TrafficAgreement.InterruptedAgreesIff`); for a file that only grew, all is well if and only if no newline follows the
  committed offset (`TrafficAgreement.InterruptedAppendAgreesIff`).
- **The two windows notice every edit exactly up to a committed offset of 8192.** Every history that never goes on from an
  offset beyond n ends in agreement, after any edits that change a file's time or size, if and only if n is at most 8192
  (`TrafficAgreement.WindowsReachExactly`). Above that there is always a history of two plain rescans, of a file and of
  an edit of it, that leaves wrong tables (`TrafficAgreement.UnseenHistory`).
- **A file that is only touched is indexed anew.** A rescan that finds another modification time but no greater size
  rebuilds under a new epoch (`cli/web_incremental.go:28-30`), so all requests get new ids. Over the history of a growing
  file the epoch is one more than the number of such rescans (`TrafficIds.EpochCountsTouches`), and indexed requests keep
  their ids and places from one rescan to a later one if and only if there was none in between
  (`TrafficIds.GrowingKeepsEarlierIff`).
- **The archive can hold records that the live view never showed**: the archive decodes the trimmed line, the index
  the line itself, and the archive has no length limit and takes an unfinished last line. `Archive.ArchiveAgreesIff`
  says for which files the two agree, and by `Archive.VerticalTabIsArchivedOnly` a vertical tab before any record that
  is kept makes a line for which they do not.
- **A session that is removed and indexed again** starts its reset epoch at one again, so its revision can be the
  old one although all its rows are new (`LiveStream.RecreatedSessionGoesUnseen`). With equal revisions a session's rows are
  equal if and only if it was not removed in between or had none (`LiveStream.EqualRevisionEqualRowsIff`). The stream's
  guarantees are therefore stated for sessions that stay in the table.
- **A stop can overwrite the record of another capture.** `record stop --out` may name the directory of a capture that has
  ended, and the metadata there is replaced (`cli/main.go:652-659`; `CaptureRecords.StopCanOverwriteAnother`). Over every run,
  a capture that has begun is still active or has its own final record if and only if no stop has taken its directory
  over (`CaptureRecords.OwnRecordIff`).
- **A Proxify start that dies between its two writes leaves metadata that says recording for a capture that never
  began** (`cli/record_proxify.go:49-54`), and no command ends it. Over every run, metadata says that a capture is going on
  while the active file does not name it if and only if its start died in this way and no stop has written over it since
  (`CaptureRecords.LeftBehindIff`).
- **A torn active file counts as no capture**: start goes on after any error of reading it
  (`cli/main.go:513-515`) and the file is written in place (`cli/main.go:801-806`). Start overwrites it if and only
  if it is not readable (`CaptureLifecycle.StartOverwritesIff`); a run that loses a capture this way is
  `CaptureLifecycle.TornFileLosesACapture`. The other statements about runs take single files to be written in full
  or not at all.
- **A stop from the phone can end another capture**, because the id is compared before the lock is taken
  (`cli/control_server.go:263-276`): exactly when, between the look and the lock, a start got through that no stop or
  abandon behind it ended (`CaptureLifecycle.PhoneStopHitsAnotherIff`).
- **The answer to a start says `starting` even when marking the capture failed**, since that error is dropped
  (`cli/control_server.go:225-226`). It is true of the disk if and only if the mark got as far as the active file
  (`ControlCommands.StartIsTrueIff`).
- **A command id acts at most once only for requests that do not overlap the first**: of any number of requests with one id the
  first to look always acts, and it is the only one if and only if every other one looks after it has remembered its
  reply (`ConcurrentCommands.OnlyFirstActsIff`).

## What is taken as given

- JSON decoding is a function from bytes to records that ignores white space around a value (`Captures.IgnoresOuterSpace`)
  and rejects a leading vertical tab (`Archive.RejectsVerticalTab`; section 2 of RFC 8259).
- A JSON reader takes an object up to its closing brace when a comma or a closing bracket follows
  (`HarExport.ReadsObjects`).
- SHA-256 and the digest of the live revision are injective; a digest is represented by what it was computed from.
- A SQLite transaction commits as a whole or not at all, and AUTOINCREMENT ids are never given out twice. Full-text MATCH is
  any relation between rows and queries.
- Modification times are not zero, and a file whose device, inode, time and size are the same at two rescans was not
  changed in between (`TrafficAgreement.StatIsHonest`).
- A file met again under the same device and inode was not edited outside both windows
  (`TrafficAgreement.WindowsAreHonest`), which is proved for growing files and for committed offsets up to 8192.
- New capture ids are new.
- The XML decoder ends without an error only on a well-nested stream. The URI grammar reads a path of slashes and
  unreserved characters as it stands (`Pairing.ReadsPlainPaths`).
- Clocks, random values, file contents and the answers of other programs are parameters.

## Model

| member | source | states |
|---|---|---|
| TrafficLines.ReadJsonLine | cli/web_index.go:999-1017 | Whatever fragments the buffered reader delivers, the joined line, its length, the oversize flag and the error depend on the bytes alone. |
| TrafficLines.LineReader.ReadSlice | cli/web_index.go:1003-1004 | The fragments a buffered reader may deliver: up to and with the newline, a full buffer without one, or the rest and the end. |
| TrafficLines.ResumeEqualsRebuild | cli/web_incremental.go:51-61 | Resuming a committed scan over any text that keeps the committed bytes equals one pass over that text, wherever appends were cut. |
| TrafficLines.RebuildOffset | cli/web_incremental.go:120-150 | The committed offset is the start or just after a newline, and no newline follows it: an unfinished last line stays invisible. |
| TrafficLines.CursorInvariant | cli/web_incremental.go:115-160 | Rows are ordered, disjoint, whole lines judged to hold their record; every line read is a row, skipped, blank or filtered out, and exactly one of these. |
| TrafficLines.LinesAccounted | cli/web_incremental.go:127-143 | Line number and counts over any further lines add up. |
| TrafficLines.CommittedPrefix | cli/web_incremental.go:122-126 | A text that keeps the committed bytes has the same complete lines first, then those from the committed offset on. |
| TrafficDatabase.CommitScanRequests | cli/web_incremental.go:103-180 | A committed scan appends its rows under new ids to its own session, after dropping the old ones on a reset, and leaves every other session's rows. |
| TrafficDatabase.CommitScanRows | cli/web_incremental.go:103-140 | The rows of a session after a committed scan are the kept ones followed by the new ones. |
| TrafficDatabase.WithoutIsGone | cli/web_incremental.go:103-109 | Deleting a session's requests leaves none of its own and all of every other session's. |
| TrafficIndex.WebIndex.ScanTraffic | cli/web_incremental.go:97-181 | The transaction commits the specified tables, or reports an error and changes nothing. |
| TrafficIndex.WebIndex.ScanFile | cli/web_incremental.go:115-150 | The line loop computes the fold over complete lines and inserts exactly its rows. |
| TrafficIndex.WebIndex.IndexLine | cli/web_incremental.go:127-143 | What one line does to offset, line number, skipped count and rows: oversized, blank, corrupt, filtered out or indexed. |
| TrafficIndex.WebIndex.RebuildTraffic | cli/web_incremental.go:64-87 | A rebuild from the start offset, with its error cases (offset, open failure, replaced file). |
| TrafficIndex.WebIndex.UpdateTraffic | cli/web_incremental.go:27-62 | Resumes exactly when the file grew, identities match and both windows are unchanged; rebuilds otherwise. |
| TrafficIndex.WebIndex.RescanSession | cli/web_index.go:302-331 | One session's part of a rescan: fingerprint, change test, row upsert before the scan, and the error mark that forces a retry. |
| TrafficAgreement.WindowsCover | cli/web_incremental.go:183-201 | Up to 8192 committed bytes, equal windows mean equal committed bytes. |
| TrafficAgreement.SmallUpdateAgrees | cli/web_incremental.go:47-61 | From a cursor of at most 8192 bytes every committed update leaves the tables of a full rebuild, after any edit of the file. |
| TrafficAgreement.WindowsReachExactly | cli/web_incremental.go:27-62 | Every history of rescans from empty tables that never goes on from an offset beyond n ends in agreement, after any edits that change a file's time or size, if and only if n is at most 8192. |
| TrafficAgreement.UnseenHistory | cli/web_incremental.go:27-62 | For every greater offset, session and decoder: two rescans from empty tables, nothing failing and time and size changed, after which the tables are not those of one pass. |
| TrafficAgreement.UnseenUpdate | cli/web_incremental.go:47-61 | An update that goes on over an edit the windows do not show commits something else than one pass over the file. |
| TrafficAgreement.UnseenEdit | cli/web_incremental.go:183-201 | For every greater offset, two files with equal windows whose resumed scan differs from the rebuild. |
| TrafficAgreement.UpdateAgrees | cli/web_incremental.go:27-62 | A committed update leaves exactly the tables of a full rebuild of the file it read. |
| TrafficAgreement.OtherFileIsRebuilt | cli/web_incremental.go:47-50 | A cursor that names another file is never resumed. |
| TrafficIds.UpdateKeepsEarlierIff | cli/web_incremental.go:27-62 | A committed update keeps the ids, places and epoch of what is indexed if and only if the opened file is the one the tables come from, grew, and still has the committed bytes; otherwise the epoch rises by one. |
| TrafficIds.GrownFileIsResumed | cli/web_incremental.go:47-61 | A readable file that is the same one, grew and kept its committed bytes is always gone on with. |
| TrafficIds.EpochCountsTouches | cli/web_index.go:302-331 | Over the history of a growing file, the epoch is one more than the number of rescans that met it touched and not longer. |
| TrafficIds.GrowingKeepsEarlierIff | cli/web_incremental.go:97-113 | From one rescan of a growing file to a later one, indexed requests keep their ids and places if and only if there was no such rescan in between. |
| TrafficFaults.ScanCountsFaults | cli/web_incremental.go:127-137 | The skipped count is the number of lines over the limit or with neither white space alone nor a record of the known version. |
| TrafficFaults.HistoryTellsFaults | cli/web_incremental.go:156-160 | After every rescan of every uncut history, the error text of a session that is not marked as failed tells how many complete lines are faulty. |
| TrafficFaults.FirstLookFailsIff | cli/web_incremental.go:64-87 | A first rescan is marked as failed exactly when the file could not be opened or read, was swapped, or is shorter than the start offset. |
| TrafficFaults.FailedLooksAgain | cli/web_index.go:325-331 | A session marked as failed is looked at again whatever the next rescan sees. |
| TrafficAgreement.OtherCommits | cli/web_incremental.go:97-181 | Whatever is committed for other sessions, a session's row, cursor and requests stay as they are. |
| TrafficAgreement.HistoryAgrees | cli/web_index.go:267-334 | After every rescan of every history not cut off between its two writes, also across a change of source and scan options and among any commits of other sessions, the session is marked failed or shows exactly a full rebuild; files met again must not have been edited outside both windows. |
| TrafficAgreement.AnyHistoryHeals | cli/web_index.go:267-334 | After every history, cut off between its two writes wherever it may be, the tables come from some rescan's text, and a rescan that does not die and finds a change leaves the session in agreement. |
| TrafficAgreement.CutHistoryAgreesIff | cli/web_index.go:313-331 | After every history with any cuts, a rescan that does not die leaves agreement if and only if it finds a change or the tables were right already. |
| TrafficAgreement.SmallHistoryIsHonest | cli/web_incremental.go:183-201 | When no rescan goes on from an offset beyond 8192, the windows tell the truth about any edits. |
| TrafficAgreement.SmallHistoryAgrees | cli/web_index.go:267-334 | HistoryAgrees with no assumption about edits, when no rescan goes on from an offset beyond 8192. |
| TrafficAgreement.GrowingIsHonest | cli/web_incremental.go:47-57 | A file that only grows meets what HistoryAgrees expects of the file system. |
| TrafficAgreement.CleanRescanSucceeds | cli/web_index.go:325-331 | A rescan of a readable file that was not swapped is never marked as failed. |
| TrafficAgreement.IncrementalEqualsRebuild | cli/web_incremental.go:27-181 | Appends cut at arbitrary bytes with a rescan after each: rows, offset, line number, skipped count and windows equal one rebuild of the file as that rescan met it. |
| TrafficAgreement.InterruptedScanIsNotRepeated | cli/web_index.go:313-331 | After dying between row upsert and scan, the next rescan of the same file changes nothing and marks nothing. |
| TrafficAgreement.InterruptedAgreesIff | cli/web_index.go:313-331 | After such a cut and a clean rescan of the same, whatever file or none it sees: agreement if and only if that rescan looks again or the tables already held nothing for a missing file, or the file's own rebuild. |
| TrafficAgreement.InterruptedAppendAgreesIff | cli/web_index.go:322-330 | For a file that only grew: if and only if no newline follows the committed offset. |
| TrafficAgreement.IndexedTrafficPath | cli/web_index.go:772-796 | The first candidate with the stored device and inode; none only when no candidate has them. |
| TrafficAgreement.ReadsBackWhatWasIndexed | cli/web_index.go:732-770 | While the file with the stored identity keeps its committed bytes, every indexed request reads back as the indexed record and the length check never refuses it; without such a file it is reported as changed. |
| Archive.ExtractCapturedTransactions | cli/record_proxify.go:139-204 | The archive, its count and its skipped count are those of the pieces between the offsets, judged one by one; bad offsets are an error. |
| Archive.ExtractLine | cli/record_proxify.go:168-183 | What one piece does: blank, corrupt or foreign, out of time, another client, or kept as its trimmed text and a newline. |
| Archive.ArchiveShows | cli/record_proxify.go:165-191 | Indexing the written archive gives the kept records in file order, `count` lines, and skips exactly the kept lines over 32 MiB. |
| Archive.LineAgrees | cli/record_proxify.go:173-183 | Per whole line, the live index and the archive agree unless only the archive keeps it. |
| Archive.ArchiveAgreesIff | cli/record_proxify.go:139-204 | The archive's records equal, in order, those of the live scan before the end offset and up to the end time if and only if no piece is kept by the archive alone. |
| Archive.ArchiveCountIff | cli/record_proxify.go:176-183 | `count` rows and none skipped, if and only if no kept line is too long for the index. |
| Archive.TakeAllCounts | cli/record_proxify.go:163-190 | `count` is the number of pieces kept, and `skipped` that of all others that are not blank. |
| Archive.VerticalTabIsArchivedOnly | cli/record_proxify.go:169-175 | A vertical tab before any record that is kept, under any limits and decoder: the archive has the record, the live index does not. |
| HarExport.ExportCaptureHAR | cli/record_proxify.go:211-279 | The HAR file is written only when every line decodes, and lists the records in file order with commas between them. |
| HarExport.ArchiveExports | cli/record_proxify.go:86-95 | Exporting a fresh archive never fails and lists exactly its `count` kept records, in order. |
| HarExport.DecodedIff | cli/record_proxify.go:234-240 | A file is exported if and only if each line is blank or decodes, with one entry for each line that is not blank. |
| HarExport.WrittenReadsBack | cli/record_proxify.go:229-264 | A JSON reader finds exactly the entries in the written array, in order, and the closing braces behind it. |
| LiveStream.RescanIsReplay | cli/web_index.go:322-331 | A rescan of a session is one or two of the commits that the stream's theorems are about. |
| LiveStream.ReplayKeepsTables | cli/web_index.go:224-257 | Under all commits ids ascend, no id is given out again, and every row, cursor and epoch belongs to a session in the table. |
| LiveStream.ReplayEpoch | cli/web_incremental.go:103-114 | While a session stays in the table its epoch never falls, and while it is equal the earlier rows with their ids are a prefix of the later ones. |
| LiveStream.DroppedRowRaisesEpoch | cli/web_incremental.go:103-114 | Dropping a row of a session that stays raises its epoch. |
| LiveStream.EpochCountsResets | cli/web_incremental.go:103-113 | While a session stays, its epoch grows by the number of commits that reset it. |
| LiveStream.NoResetNoEpoch | cli/web_incremental.go:103-113 | Without a reset no session comes to have another epoch, whatever else happens to it. |
| LiveStream.EqualRevisionEqualRowsIff | cli/web_live.go:24-49 | With equal revisions, a session's rows are equal if and only if it was not removed in between or had none. |
| LiveStream.EqualRevisionEqualSessions | cli/web_live.go:24-49 | With equal revisions, status, fingerprint and error text of every session are equal. |
| LiveStream.RemovedRowsStayGone | cli/web_index.go:505-518 | No row outlives the removal of its session, whatever is committed later. |
| LiveStream.RecreatedSessionGoesUnseen | cli/web_live.go:24-49 | A removed and recreated session can have its old revision with all rows new. |
| LiveStream.BatchIsStretch | cli/web_live.go:75-92 | A batch is exactly the rows above the given id up to its own last one, in id order. |
| LiveStream.SendTracks | cli/web_live.go:174-186 | Sending a batch repeats no id and moves the line between known and unknown rows to its last id. |
| LiveConnections.SharedIndex.ReadStart | cli/web_live.go:105-119 | The three separate reads a connection begins with, with commits of others before each, leave nothing unknown that was there at the first. |
| LiveConnections.LiveConnection.constructor | cli/web_live.go:94-126 | A new connection has sent nothing and starts in step with the index. |
| LiveConnections.LiveConnection.Interleave | cli/web_live.go:129-191 | Whatever others commit between its reads, a connection stays in step. |
| LiveConnections.LiveConnection.SendBatch | cli/web_live.go:174-186 | One batch: nothing twice, and an empty one means nothing is waiting. |
| LiveConnections.LiveConnection.NextBatch | cli/web_live.go:174-186 | One turn of the batch loop among the commits of others. |
| LiveConnections.LiveConnection.SendRows | cli/web_live.go:173-186 | The batch loop ends, sends nothing but batches, and has then sent every row that was there when the newest id was read and still is. |
| LiveConnections.LiveConnection.SendBatches | cli/web_live.go:163-189 | What a tick sends behind its report: batches and a refresh, or only the refresh for a reset index, exactly when the newest id fell below the last one sent. |
| LiveConnections.LiveConnection.NoteResets | cli/web_live.go:149-162 | A session is reported if and only if it has an epoch now that it did not have when the epochs were last read; when there is none, nothing is sent. |
| LiveConnections.LiveConnection.BeatIdly | cli/web_live.go:143-147 | When the revision is unchanged, every row of a session that stayed is already known to the client, and none that was there at any time since the epochs were read was dropped. |
| LiveConnections.LiveConnection.SendNews | cli/web_live.go:148-189 | A tick that is not idle delivers what was there, and reports every session that stayed and lost rows between one reading of the epochs and the next, also rows that came in after the first. |
| LiveConnections.LiveConnection.Tick | cli/web_live.go:133-190 | Per tick, idle or not: what was there at the read and still is has reached the client; a row that was there at any time since the epochs were read and is gone, from a session that stayed, makes a tick that is not idle and reports the session. What it reports are exactly the changed epochs; an idle tick sends a heartbeat and no more. |
| LiveConnections.HandleLiveEvents | cli/web_live.go:94-192 | Over a whole connection, whatever is committed meanwhile, no id is sent twice, none that was there at connect is sent, and every row dropped between the first and the last reading of the epochs, from a session that stayed, is reported. Every reported session was reset in that time, and every reset of a session that stayed is reported. |
| LiveConnections.IdleDroppedNothing | cli/web_live.go:143-147 | With the revision unchanged, nothing was dropped since the epochs were read. |
| LiveConnections.DropsAreNoted | cli/web_live.go:153-162 | Every row that was there at any time between two readings of the epochs and is gone at the second shows in the epochs, for sessions that stayed. |
| LiveConnections.EpochsTellResets | cli/web_live.go:153-162 | Reporting the changed epochs means reporting only sessions that were reset, and all of those that stayed. |
| LikePattern.EscapeIsOnePass | cli/web_index.go:1101-1105 | The three successive replacements equal one escape per character. |
| LikePattern.LikeMeansContains | cli/web_index.go:707-727 | The LIKE pattern made from a text matches exactly the texts that contain it up to ASCII case, for all texts. |
| RequestQuery.RuleSql | cli/web_index.go:708-727 | Text and arguments of one focus rule, by kind. |
| RequestQuery.FocusRulesSql | cli/web_index.go:696-730 | The OR text of the active rules and its arguments in the same order. |
| RequestQuery.AddIntRange | cli/web_index.go:631-640 | Range conditions and their arguments, only for positive bounds. |
| RequestQuery.AddStatus | cli/web_index.go:610-626 | The condition of an exact status or a status class. |
| RequestQuery.PlainWhere | cli/web_index.go:595-643 | All conditions but the focus mode's, with their arguments in step. |
| RequestQuery.ListRequestsSql | cli/web_index.go:575-674 | The imperative builder yields the specified statements, or rejects the filter. |
| RequestQuery.WhereMeaning | cli/web_index.go:595-655 | The list of conditions holds of a row exactly when the filter accepts it. |
| RequestQuery.AllReads | cli/web_index.go:656-656 | The AND text evaluates, with arguments taken by position, to the conjunction, whatever follows. |
| RequestQuery.AnyReads | cli/web_index.go:729-729 | The OR text evaluates to the disjunction. |
| RequestQuery.FocusMeaning | cli/web_index.go:696-730 | The focus clauses hold exactly when some active rule matches. |
| RequestQuery.CountMeansFilter | cli/web_index.go:656-660 | The COUNT query selects a row if and only if the filter accepts it, and uses up all arguments. |
| RequestQuery.PageMeansFilter | cli/web_index.go:665-674 | The page query selects the same rows, flags exactly the focused ones, and takes limit and offset from the last two arguments. |
| FilterTexts.StatusTextMeans | cli/web_index.go:608-624 | The status text is refused unless it is empty, a digit from 1 to 5 with two x in either case, or a number from 100 to 599; it stands for any code, those with that first digit, or the one with these digits. |
| FilterTexts.TextsMean | cli/web_index.go:604-624 | Both statements ask for the codes and the method that the texts stand for, the method in capitals, and beyond that for what the filter without them asks for. |
| FilterTexts.FocusModeMeans | cli/web_index.go:585-591 | The focus mode is read without the white space around it and in either case; none means all. |
| FilterTexts.ActiveIff | cli/web_index.go:694-703 | A focus rule counts exactly when it is switched on and its pattern is not blank. |
| FilterTexts.IdleRulesDoNotMatter | cli/web_index.go:694-703 | A rule that does not count changes neither statement, wherever it stands. |
| RequestQuery.TotalsAddUp | cli/web_index.go:645-660 | On every table the totals of `only` and `exclude` sum to the total of `all`. |
| RequestPages.SortSorts | cli/web_index.go:661-673 | ORDER BY timestamp, id keeps every row and puts them in strict order. |
| RequestPages.SortedIsUnique | cli/web_index.go:661-673 | That order is unique, so successive page queries agree on it. |
| RequestPages.DescendingIsReversed | cli/web_index.go:661-673 | Descending order is ascending order read backwards. |
| RequestPages.PageIsSlice | cli/web_index.go:671-693 | A page is the asked-for slice of the sorted list of accepted rows. |
| RequestPages.PageOfSize | cli/web_index.go:579-587 | Up to 500 rows a page has the size asked for and lies behind the pages before it. |
| RequestPages.PagesAreTheList | cli/web_index.go:670-676 | The pages one behind the other are the list. |
| RequestPages.PageDefaults | cli/web_index.go:579-587 | Without a usable number or size, or beyond 500 rows, the request is for page 1, 100 rows, or 500. |
| RequestPages.CountIsLength | cli/web_index.go:656-660 | The total is the length of that list. |
| BatchExport.ExportBatch | cli/web_export.go:319-323 | The inner loop tries the batch's ids in order and stops at a broken write. |
| BatchExport.ExportPages | cli/web_export.go:312-327 | The page loop ends after max(1, ceil(total/500)) pages and tries every listed request exactly once, in list order. |
| BatchExport.EveryIdOnce | cli/web_export.go:274-304 | Unless a write broke, the ids were tried once each in order, exported plus skipped equals their number, and nothing is to report if and only if every record is fine. |
| BatchExport.ExportWebSession | cli/web_export.go:250-333 | One session: its index error, the picked or listed ids, the error cases, and what the manifest learns. |
| BatchExport.HandleBatchExport | cli/web_export.go:113-144 | The sessions in order up to the first error, with the counts added up and the final status. |
| BatchExport.CompleteIffHonest | cli/web_export.go:128-144 | The status is `complete` if and only if no session had an index error or failed and every request was readable, properly timed and captured in full. |
| BatchExport.CountsAddUp | cli/web_export.go:114-130 | Unless the export failed, every session has its file, and exported plus skipped is what all sessions asked for. |
| BatchExport.FailedIff | cli/web_export.go:98-130 | The export fails if and only if some session's entry cannot be created, its filter is refused, or writing one of its records breaks off. |
| BatchExport.FineIffCapturedWhole | cli/web_export.go:289-300 | A record whose bodies were captured on their way counts as fine if and only if it has a proper time and both bodies passed without an error and were captured whole. |
| BatchExport.WholeSessionIsWhole | cli/web_export.go:309-311 | Exporting a whole session lists exactly its rows, in ascending order. |
| BatchExport.FilteredIsFiltered | cli/web_export.go:308-325 | A filtered export tries exactly the rows of the session that the page's filter accepts, in the page's order, and is refused exactly when the page would refuse. |
| BatchExport.WholeOrPicked | cli/web_export.go:302-325 | Which ids any other export tries: those picked by hand, or all of the session. |
| ExportSelection.SelectedRequests | cli/web_export.go:195-208 | The picked ids of each session: exactly those asked for, each once, in increasing order. |
| ExportSelection.SelectWebExportSessions | cli/web_export.go:188-248 | Refused if and only if nothing is covered or something asked for by name is not; otherwise the covered sessions in order. |
| Base64.RoundTrip | cli/control_server.go:431-431 | Decoding an encoding gives the data back, in both alphabets, with and without padding. |
| Base64.RoundTripStd | cli/web_index.go:943-944 | The same for the standard encoding of captured bodies, read with line breaks skipped. |
| Utf8.TruncateUtf8 | cli/web_index.go:1090-1099 | The longest valid prefix within the limit; of a valid text the loop drops at most three bytes. |
| Utf8.PayloadForSearch | cli/web_index.go:466-471 | Search text stays within its limit, is valid, and loses at most three bytes more than it must. |
| Utf8.LimitDecoded | cli/web_index.go:906-917 | Decoded display bytes stay within their limit and are cut to the longest valid part. |
| Utf8.LongestIsUnique | cli/web_index.go:1090-1099 | There is only one longest valid prefix. |
| BodyCapture.CapturingReadCloser.Read | cli/proxy_proxify.go:438-460 | The caller gets exactly what the source answered, and the new state is the specified one. |
| BodyCapture.CapturingReadCloser.Close | cli/proxy_proxify.go:462-473 | The caller gets the source's own error; the first error is remembered. |
| BodyCapture.CapturingReadCloser.Complete | cli/proxy_proxify.go:475-480 | The callback runs once, with the payload of that moment. |
| BodyCapture.BufferIsPrefix | cli/proxy_proxify.go:438-449 | After any reads and closes the buffer is the first min(total, maximum) bytes of the body. |
| BodyCapture.ReportedAtFirstEnd | cli/proxy_proxify.go:456-480 | The record is reported exactly once, by the first read that ends or the first close, with what was captured until then. |
| BodyCapture.ReadsBack | cli/proxy_proxify.go:496-508 | Whatever was captured, text or not, is read back byte for byte. |
| BodyCapture.IncompleteIff | cli/web_export.go:350-366 | For records made here the export's long check holds if and only if the record is truncated or had a read error. |
| BodyCapture.RecordOfRun | cli/proxy_proxify.go:438-508 | From the reads and closes alone: the bytes, error text and size of the reported record, and that it counts as complete if and only if nothing failed before the report and it holds the declared length, or everything up to an end that was seen. |
| BodyCapture.CompleteIsWhole | cli/proxy_proxify.go:482-494 | A record that is not marked incomplete holds the whole body. |
| XmlFilter.TransactionMatches | cli/export.go:117-138 | The loop uses the last attribute of each name; time range and client address decide. |
| XmlFilter.MatchesTime | cli/export.go:121-138 | A transaction with a start time in decimal matches exactly when that time lies between the bounds that are set and the client is the right one. |
| Texts.ParseIntMeans | cli/export.go:123-123 | The text of a number is read as that number, or the nearest one of 64 bits. |
| Texts.OtherTextIsZero | cli/export.go:123-123 | Any other text of up to nineteen characters is read as zero. |
| Captures.ClientAddressIff | cli/export.go:140-142 | An address with or without a slash in front and a port behind matches exactly when its host is the expected one. |
| XmlFilter.Encoder.EncodeToken | cli/export.go:74-76 | An encoder accepts a token exactly when it nests and can be written, and whatever it holds back, its output grows by that token. |
| XmlFilter.CopyBlock | cli/export.go:79-102 | One transaction with everything in it is copied by depth counting. |
| XmlFilter.FilterXML | cli/export.go:52-115 | A result is written if and only if there was no decoding error and every token can be encoded; it is the filtered stream with its count, the two encoders' output in document order. |
| XmlFilter.FilteredIsPruned | cli/export.go:67-109 | Filtering the tokens by depth counting is pruning the tree, whatever follows. |
| XmlFilter.FilterIsPruning | cli/export.go:52-115 | The output is the document without its outermost transactions that do not match, well nested, and `kept` is the number of outermost ones that do. |
| XmlFilter.WellNestedIffTree | cli/export.go:62-73 | The well-nested token streams are exactly the flattened trees. |
| XmlFilter.PruneTwice | cli/export.go:52-115 | Filtering a second time changes nothing. |
| CaptureSessions.SessionStore.WriteState | cli/main.go:718-725 | Writing the active file, or dying before or in the middle of it. |
| CaptureSessions.SessionStore.WriteSessionMetadataTo | cli/main.go:731-743 | Writing a metadata file; no directory is an error. |
| CaptureSessions.SessionStore.ClearState | cli/main.go:745-755 | Removing the active file; removing nothing is no error. |
| CaptureSessions.SessionStore.Start | cli/main.go:513-590 | Start is refused while a running capture is readable; otherwise its writes in the engine's order, as far as the process gets. |
| CaptureSessions.SessionStore.Stop | cli/main.go:592-667 | Stop writes the completed metadata to the output directory, to the capture's own one if different, and then clears the active file. |
| CaptureSessions.SessionStore.Abandon | cli/session_manager.go:38-72 | Abandon compares the id under the lock, writes metadata, then clears. |
| CaptureSessions.SessionStore.MarkActiveSessionStatus | cli/session_manager.go:78-93 | Marking compares the id under the lock and writes the active file before the metadata. |
| CaptureLifecycle.EveryRunIsSound | cli/session_manager.go:21-93 | In every run with crashes between any file operations, the active file is readable or absent, and each capture it ever named is named still or completed or abandoned metadata lies in its directory (whose: CaptureRecords.OwnRecordIff). |
| CaptureLifecycle.StartNeverOverwrites | cli/main.go:513-515 | In every run, a start while a capture is active changes nothing. |
| CaptureLifecycle.StartOverwritesIff | cli/main.go:513-515 | A start that is ready takes the active file over if and only if no running capture can be read from it. |
| CaptureLifecycle.TornFileLosesACapture | cli/main.go:801-806 | A run with one torn write in which a capture is lost while its metadata says recording. |
| CaptureLifecycle.EndedStaysEnded | cli/record_proxify.go:96-110 | Once the active file has stopped naming a capture it never names it again, and what lies in its directory stays completed or abandoned. |
| CaptureLifecycle.MetadataIsFrozen | cli/main.go:652-664 | The metadata of a capture that is not active changes only by a stop told to write there, and then to completed. |
| CaptureLifecycle.EndingIsRecorded | cli/session_manager.go:60-67 | A command that empties the active file has recorded the end before. |
| CaptureRecords.OwnRecordIff | cli/main.go:652-664 | Over every run with crashes, a capture that has begun is still active or its directory holds its own final record, if and only if no stop has taken the directory over. |
| CaptureRecords.AllRecordsKeptIff | cli/main.go:652-664 | All captures keep their own records exactly in the runs in which no stop takes a directory over. |
| CaptureRecords.EndedKeepsOwnRecordIff | cli/record_proxify.go:96-108 | After a capture has ended, the record in its directory is its own exactly as long as no stop has taken it over. |
| CaptureRecords.RecordIsFinal | cli/record_proxify.go:96-110 | Until then the record does not change at all. |
| CaptureRecords.StopRecords | cli/record_proxify.go:94-110 | A stop that is carried out leaves the same final record in both directories, with the export's two counts for a Proxify capture and everything else as it was. |
| CaptureRecords.StopCountsTheArchive | cli/record_proxify.go:81-99 | These are the number of records in the archive and the number of the other pieces that are not blank. |
| CaptureRecords.StopCanOverwriteAnother | cli/main.go:609-664 | Start a, abandon it, start b, stop b into the directory of a: the record of a is gone everywhere. |
| CaptureRecords.LeftBehindIff | cli/record_proxify.go:49-54 | Over every run with crashes, metadata says that a capture is going on while the active file does not name it if and only if its Proxify start died between its two writes and no stop has written over it since; such a capture never began. |
| CaptureRecords.HalfStartLeavesBehind | cli/record_proxify.go:49-54 | A run in which it happens. |
| CaptureLifecycle.OtherCapturesAreSafe | cli/session_manager.go:41-47 | Abandon and confirm leave everything alone when another capture is active, and otherwise touch no directory but that of the capture they name. |
| CaptureLifecycle.PhoneStopHitsAnotherIff | cli/control_server.go:263-276 | A stop from the phone ends another capture if and only if, between its look and its lock, a start got through that no later stop or abandon ended. |
| CaptureLifecycle.AnotherIsNamedIff | cli/control_server.go:263-276 | Over any steps, the active file comes to name another capture exactly under that condition. |
| CaptureLifecycle.PhoneStopCanHitAnother | cli/control_server.go:263-276 | A run in which it happens. |
| ControlCommands.ControlApplication.HandleStart | cli/control_server.go:182-229 | Validation, table, proxy, start and the mark as starting, with the reply of each outcome. |
| ControlCommands.ControlApplication.HandleConfirm | cli/control_server.go:231-249 | Validation, table, and the mark as recording. |
| ControlCommands.ControlApplication.HandleStop | cli/control_server.go:251-286 | Validation, table, the look at the active capture, the stop, and the reply from the metadata. |
| ControlCommands.ControlApplication.HandleAbandon | cli/control_server.go:288-308 | Validation, table, and the abandon. |
| ControlCommands.StartIsTrueIff | cli/control_server.go:219-228 | A start's answer is true of the disk if and only if the mark got as far as the active file; when it did not and nothing was torn, the disk says recording. |
| ControlCommands.RepliesAreTrueIff | cli/control_server.go:212-307 | An answer names the capture, status, times and directory that the disk then holds, and a failure without a cut-short write leaves the disk as it was, with that one exception. |
| ControlCommands.AnswersIff | cli/control_server.go:182-308 | A request with a new id is answered if and only if it is acceptable and can be carried out, as seen from the disk, the proxy, the engine and how far the process gets; an unacceptable one is refused as such and changes nothing. |
| ControlCommands.StartRuns | cli/control_server.go:203-228 | A start that is carried out runs the start and the mark and leaves the new capture active; without the proxy nothing runs. |
| ControlCommands.AnsweredInRunsIff | cli/control_server.go:182-308 | In every run of a server, wherever processes died, the same holds with nothing asked of the disk. |
| ControlCommands.TableGrows | cli/control_server.go:310-328 | A recorded reply is never changed or lost by later requests, nor by other commands. |
| ControlCommands.OnlyTheFirstActs | cli/control_server.go:182-328 | Of the acceptable requests with one id only the first does anything; each later one gets the first one's reply, whatever it asks for. |
| ControlCommands.AtMostOnce | cli/control_server.go:182-328 | Over any run of a server, every command id starts, confirms, stops or abandons at most once. |
| ConcurrentCommands.OneByOneIsSerial | cli/control_server.go:182-328 | A schedule of the requests' separate moments without overlap does exactly what serving them one after the other does. |
| ConcurrentCommands.KnownIff | cli/control_server.go:310-328 | In any schedule an id is in the table exactly after a request of that id that missed it has remembered. |
| ConcurrentCommands.OnlyFirstActsIff | cli/control_server.go:200-328 | Of any number of requests with one id among any others, the first to look acts, and only it if and only if every other one looks after it has remembered. |
| CurlText.WrapCurlParts | cli/webui/app.js:697-704 | The wrapped text: a blank after a flag, a line continuation before the next one. |
| CurlText.QuotedReads | cli/webui/app.js:693-695 | A quoted text is read back by the shell as exactly that text. |
| CurlText.WrappedRoundTrip | cli/webui/app.js:697-704 | The shell reads exactly the words back that the parts stand for, whatever is in them. |
| CurlText.CurlFromRequestDetail | cli/webui/app.js:611-633 | The copied command, read by a shell, is exactly the argument list of the request; the warning is given if and only if a captured body is left out. |
| CurlText.CurlSendsAgain | cli/webui/app.js:611-633 | Run by curl, these arguments send the request's method in capitals, its URL, its header lines in order, and its body when it can be copied. |
| Pairing.ReferenceRoundTrip | cli/main.go:292-307 | A printed version 3 reference stays within 1024 characters and decodes to the download URL and digest it was printed from. |
| Pairing.ControlReferenceRoundTrip | cli/control_server.go:418-433 | The same for version 4, with the fingerprint in upper case. |
| Pairing.WrittenReads | app/src/main/java/com/fly/httpcapture/config/PairingCodec.kt:17-25 | A reference made of plain segments is split back into exactly those segments. |
| Pairing.OuterSpaceIsIgnored | app/src/main/java/com/fly/httpcapture/config/PairingCodec.kt:17-19 | White space around a pasted reference makes no difference. |
| Pairing.DigestReads | app/src/main/java/com/fly/httpcapture/config/PairingCodec.kt:35-36 | A digest text decodes to the digest, has a fixed length and only unreserved characters. |
| Pairing.Ipv4IsPlain | app/src/main/java/com/fly/httpcapture/config/PairingCodec.kt:87-92 | What passes the address check has at most 15 unreserved characters. |
| Pairing.Ipv4Iff | app/src/main/java/com/fly/httpcapture/config/PairingCodec.kt:87-92 | The accepted addresses are exactly four numbers up to 255 with dots between them. |
| Pairing.OnlyThePrintedBundle | app/src/main/java/com/fly/httpcapture/config/PairingCodec.kt:41-47 | Behind a printed reference only bundles with the printed digest are accepted. |

## Left out

- HTTP serving, TLS, certificates, QR codes, process control and the recording proxy itself: input, output and foreign code.
- The phone's app, its VPN service and tile, and the page's rendering and timers.
- SQLite, FTS5, gzip, zlib, and JSON, XML and URI lexing are functions or relations. SQL is modelled from its tokens on, and
  the text of a MATCH query (`cli/web_index.go:1077-1088`) is an input.
- TrafficIndex.WebIndex.ScanTraffic: a statement that SQLite refuses rolls the scan back like a read error; it is not told
  apart from one.
- TrafficIndex.WebIndex.ScanFile: nor is an INSERT that is refused inside the loop.
- TrafficIndex.WebIndex.RescanSession: a refused row upsert ends the rescan with nothing changed, and a refused error mark
  (`cli/web_index.go:327-329`) loses freshness like an interrupted rescan; neither is modelled.
- Archive.ExtractCapturedTransactions: errors of reading the source or writing the archive leave no archive and are not modelled.
- HarExport.ExportCaptureHAR: the same for the HAR file; encoding an entry does not fail.
- Whether a session's source is the live file or the archive (`cli/web_index.go:380-401`) is an input of each rescan.
- Upper and lower case are those of ASCII; digits are those of ASCII.
- RequestQuery.ListRequestsSql: the session id's length is counted in characters, where the code counts bytes.
- XmlFilter.FilterXML: output is a sequence of tokens; how an encoder writes a token, including name space prefixes and its
  rule about where an XML declaration may stand, is not modelled.
- XmlFilter.FilterIsPruning: says nothing about HAR filtering (`cli/export.go:144-222`), which is not part of this model.
- Pairing.ControlReferenceRoundTrip: as for version 3, the parsing of the download URL is not part of it.
- Pairing.ReferenceRoundTrip: the parsing of the download URL before printing is not part of it; the parts are given.
- CurlText.CurlSendsAgain: the options that are used are modelled as curl reads them; a URL that begins with a dash is not
  told apart from an option.
- CurlText.CurlFromRequestDetail: header names come in the order in which they sort; the locale's order is not modelled.
- BatchExport.HandleBatchExport: writing manifest and archive entries is reduced to whether it breaks.
- BatchExport.ExportPages: the table is fixed for one export, which holds the index's read lock.
- CaptureSessions.SessionStore.Stop: the exported files are reduced to whether making them succeeded and the two counts; output
  directories are compared as directories, not as spellings.
- ConcurrentCommands.OnlyFirstActsIff: every request runs to its end; one that is still under way is not covered.
- ControlCommands.AtMostOnce: covers one run of the server; its table does not outlive the process.
- ControlCommands.ControlApplication.HandleStart: nothing else gets the session lock between its start and its mark;
  CaptureLifecycle covers such steps one by one.
- ControlCommands.ControlApplication.HandleStop: nothing else runs between its look at the active capture and its stop;
  CaptureLifecycle.PhoneStopHitsAnotherIff is about what does.
- LiveConnections.HandleLiveEvents: read errors and a client that goes away end a connection early, with what was sent until then.
