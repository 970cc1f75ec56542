# ChronoLog: models and proofs

A Dafny 4.11 model of the parts of ChronoLog that promise something about data: that what was
acknowledged can be read, that an answer means what it says, that nothing shared is freed early.

`dafny verify dfyconfig.toml` checks the whole project.

## What is modelled

- **Archive manifest** (`Json`, `JsonScanner`, `JsonCut`, `Manifest*`). The grapher's append-only log of
  published and deleted files. `ManifestWriter` carries out `open` and `append` over a file of bytes of
  which a prefix is synced; system calls are outcomes the caller supplies (short, interrupted and failed
  writes, failed syncs and closes that lose unsynced bytes). `ManifestRun` interleaves process starts,
  opens, the four parts of any number of appends, and crashes. `ManifestTail` is the reader, with any
  `max_bytes` and any `pread` outcomes. `ManifestTheorem` and `ManifestHeader` join the two,
  `ManifestAnswers` says what each code means; `ManifestProbe`, `ManifestRaces` and `ManifestOverrun` hold
  the runs that lose a record.
- **Durable writes and tail reads** (`DurableWrite`, `LastN`, `TailGather`, `TailOutcomes`). Client protocols against
  keepers that may answer, time out or fail. A durable attempt carries what really happened at the keeper
  beside what the client sees; the results say what the returned code entitles the caller to believe.
- **ChronoSQL** (`Sql*`, `TimeSort`). Tokenizer, parser, schema log, row codec, table operations, `execute`.
  `SqlLexemes` and `SqlGrammar` say what texts mean without the parser, and that it agrees.
- **LDMS bridge** (`LdmsRegistry`, `LdmsStories`, `LdmsJson`). The shared, reference-counted story registry,
  which story a sample goes to, and the string writer for metric values.
- **Pub/sub** (`PubSub`). The polling loop and its watermark.
- **Archive names and the extraction queue** (`ArchiveNames`, `ExtractionQueue`, `ExtractionProgress`).

Code that updates state is a class or a loop here too, proved equal to a function of its old state and
the outcomes it met; lemmas then speak about those functions, over every run. A `char` stands for one byte.

## Assumptions

- Manifest: an append starts only after its process's `open` returned CL_SUCCESS, and the log file is not
  removed. A sync covers every byte written before it. Bytes are lost before or after an append's write, not
  between two of its write calls; those lost to a failed sync or close are unsynced ones, and an append whose descriptor was open when bytes were lost has its own sync fail
  (`ManifestRaces.UnreportedLossLosesARecord` shows what that is worth). Nothing is assumed about when
  appends begin or what `open` sees: the theorem says exactly which acknowledged records are read, and
  `CarefulRun` gives the condition under which that is all of them.
- Tail: the log grows, is replaced as a whole, or loses bytes the tail has not consumed
  (`ManifestOverrun.LiveTailMissesARecord` shows what happens otherwise); the pread of the remembered head
  gets all its bytes (`ManifestTail.UnreadHeadRepeats`).
- Durable writes: a keeper's answer is true. Nothing is assumed of an attempt without an answer.
- Schema runs: metadata appends are stored with strictly increasing timestamps or throw; a metadata replay
  returns the whole story, in any order, and times out only while it is empty; table and column names are
  NUL-free.
- Table rows: a successful replay returns every event of the range asked for, in any order; every event's
  timestamp is at least 1.
- LDMS: stores are closed before the last instance detaches. Nothing is assumed about container names;
  `LdmsRegistry.OwnContainerExactly` says which ones may be used side by side.
- Pub/sub: a successful replay returns messages in [watermark, UINT64_MAX); only that no message is delivered
  twice also needs replays that repeat none.
- Extraction: a module is not initialised again once it shuts down.

## Where the code and its documentation differ

The model follows the code.

- `append` accepts a publication with an empty file name; `parseManifestLine` refuses it, so the record is
  acknowledged and never read (`ManifestRecord.NamelessPublicationIsAcceptedAndLost`).
- ArchiveManifest.cpp:462-464 promises that after a failed write the next record starts on a line of its own.
  After a failed sync or close it does so only once the failure has been flagged: an append that begins
  before that is acknowledged and lost in a glued line (`ManifestRaces.BeginBeforeTheFlagLosesARecord`).
- `open` reports success when its look at the log's last byte fails, and the next acknowledged record can
  then be lost in a glued line (`ManifestProbe.UnprobedOpenLosesARecord`).
- client/cpp/include/client_errcode.h:30-31 says nothing was stored with CL_ERR_DURABILITY_UNAVAILABLE; a
  keeper that stores, dies and restarts before the probe is an exception
  (`DurableWrite.RestartBetweenForwardAndProbe`).
- src/chrono-common/include/StoryChunkExtractionModule.h:186 makes sure the queue is drained before the
  streams are shut down; two calls that both pass the unsynchronised check can return early
  (`ExtractionQueue.RacingShutdownsReturnEarly`). No start undoes what a returned call has drained and joined,
  but one that passed its own check before the shutdown can set the module running again after it, with new
  workers (`ExtractionQueue.LateStartOutlivesShutdown`), or while that call waits for the threads, which it
  then does for ever (`ExtractionProgress.LateStartHangsTheShutdown`).
- chronolog_bridge.cpp:490-497 promises one story per producer per schema. Producers that differ only in
  characters a name does not keep share one (`LdmsStories.SameStoryExactlyWhen`), and so can schemas of which
  one extends the other (`LdmsStories.SchemasMeetExactlyWhen`).
- DROP TABLE leaves the table's story alone, as chronosql.h:100-101 says; what it does not say is that a table
  created again under the name shows the old rows (`SqlQuery.RecreatedTableShowsOldRows`).
- chronopubsub_mapper.cpp:247-251 moves the watermark past the newest delivered message, so a message that
  becomes visible later with the same stamp or an earlier one is never delivered
  (`PubSub.LateMessagesAreSkipped`).
- An INSERT literal may hold a NUL; the stored text cuts it there (`SqlQuery.InsertedRowIsSelected`).
- `BETWEEN` with its bounds the wrong way round throws instead of selecting nothing
  (`SqlQuery.ThrownRangeIsEmpty`).
- A metadata append whose write fails without throwing is taken into memory all the same
  (`SqlMapper.AgreesExactlyWhenStored`).

## Model

| member | source | states |
|---|---|---|
| Json.ParseUndoesRender | src/chrono-common/src/ArchiveManifest.cpp:181-222 | Every JSON value, rendered plainly with or without '/' escaped, parses back to itself, whatever text follows it as long as that does not start with a digit. |
| Json.RenderPrintable | src/chrono-common/src/ArchiveManifest.cpp:218-221 | No control character survives rendering, so a rendered record is one line. |
| JsonScanner.EndOfFirstObject | src/chrono-common/src/ArchiveManifest.cpp:72-109 | The scanning loop finds the index just past the brace that closes the first object, or none. |
| JsonScanner.ObjectEndsAtItsBrace | src/chrono-common/src/ArchiveManifest.cpp:69-109 | For every object the scanner's answer on its text, with anything after it, is the text's length. |
| JsonScanner.CutObjectHasNoEnd | src/chrono-common/src/ArchiveManifest.cpp:69-109 | The scanner finds no end in any proper prefix of an object's text, wherever the cut falls (inside strings and escapes too). |
| JsonCut.CutObjectThenGlue | src/chrono-common/src/ArchiveManifest.cpp:224-242 | An object of scalars cut anywhere, with text behind it that leaves the parser stuck as a value and inside a string, is refused by the JSON parser. |
| ManifestRecord.ParseOfLine | src/chrono-common/src/ArchiveManifest.cpp:181-281 | What any record's line parses to: its canonical form if its stored numbers fit in int64 and it is no publication without a file name, otherwise nothing. |
| ManifestRecord.RoundTripExactly | src/chrono-common/src/ArchiveManifest.cpp:181-281 | A record parses back to itself if and only if its stored numbers fit, it is canonical for its op, and a publication names a file. |
| ManifestRecord.AcceptedRoundTrip | src/chrono-common/src/ArchiveManifest.cpp:408-419 | Every canonical record that append's int64 guard accepts parses back to itself, DELETE with and without a bound included, except a publication without a file name. |
| ManifestRecord.NamelessPublicationIsAcceptedAndLost | src/chrono-common/src/ArchiveManifest.cpp:254-256 | The exception exists: append accepts a publication with an empty file name and no reader returns it. |
| ManifestRecord.CutLineIsUnreadable | src/chrono-common/src/ArchiveManifest.cpp:232-242 | A proper prefix of a record's line is never a record. |
| ManifestRecord.GluedLineIsUnreadable | src/chrono-common/src/ArchiveManifest.cpp:232-242 | A record's line with anything after it on the same line is never a record; the scanner ends short of the line's end. |
| ManifestRecord.TornThenGluedIsUnreadable | src/chrono-common/src/ArchiveManifest.cpp:232-242 | A line made of the non-empty beginnings of two or more records' lines, any number of them and each torn anywhere, is never a record. |
| ManifestRecord.LineIsOneLine | src/chrono-common/src/ArchiveManifest.cpp:218-221 | A record's line is not empty and holds no newline, whatever its names hold. |
| ManifestLog.RecordsConcat | src/chrono-common/src/ArchiveManifest.cpp:586-608 | Reading a log in two pieces cut at a line end gives the records of the whole. |
| ManifestLog.RecordsIgnoreTail | src/chrono-common/src/ArchiveManifest.cpp:586-590 | What follows the last newline contributes no record. |
| ManifestHistory.RecordsOfLineExactly | src/chrono-common/src/ArchiveManifest.cpp:224-281 | A log line made of beginnings of headers' and appends' lines reads as an append's record when it is that append's whole, readable line and nothing else, otherwise as nothing. |
| ManifestHistory.RecordsOfLog | src/chrono-common/src/ArchiveManifest.cpp:586-608 | Reading a log's bytes yields exactly the records of the appends that have a whole, ended line to themselves, in line order. |
| ManifestWriter.LogFile.WriteAll | src/chrono-common/src/ArchiveManifest.cpp:132-149 | Appends the prefix of the buffer that the write outcomes let out; true exactly when that is all of it (short writes and EINTR retried). |
| ManifestWriter.LogFile.Sync | src/chrono-common/src/ArchiveManifest.cpp:152-160 | A sync makes every byte durable; a failed one may lose unsynced bytes only. |
| ManifestWriter.LogFile.Close | src/chrono-common/src/ArchiveManifest.cpp:472-472 | A failed close may lose unsynced bytes only. |
| ManifestWriter.Writer.Open | src/chrono-common/src/ArchiveManifest.cpp:349-402 | New state and code of open: header for an empty log, sync, close, latch on a failed sync, the newline probe, the directory syncs. |
| ManifestWriter.Writer.AppendLocked | src/chrono-common/src/ArchiveManifest.cpp:406-470 | The part of append under the lock: guard, latch check, reopening, header or repair newline, write. |
| ManifestWriter.Writer.AppendSync | src/chrono-common/src/ArchiveManifest.cpp:470-471 | The sync outside the lock changes the file only; the writer's flags stay as they were. |
| ManifestWriter.Writer.AppendClose | src/chrono-common/src/ArchiveManifest.cpp:472-473 | The close, made whatever the sync said, changes the file only. |
| ManifestWriter.Writer.AppendFinish | src/chrono-common/src/ArchiveManifest.cpp:475-499 | Only now a failed sync latches the writer, or else a failed close asks for a newline and a recreated log syncs its directories; CL_SUCCESS only when all went well. |
| ManifestWriter.Writer.Append | src/chrono-common/src/ArchiveManifest.cpp:406-499 | The whole append, uninterrupted, is the composition of its four parts. |
| ManifestAnswers.WrittenInFullExactly | src/chrono-common/src/ArchiveManifest.cpp:132-149 | All bytes are written if and only if some first writes deliver them between them before one fails; an interruption is no failure. |
| ManifestAnswers.OpenSucceedsExactlyWhen | src/chrono-common/src/ArchiveManifest.cpp:349-402 | open returns CL_SUCCESS if and only if nothing it does fails, and leaves the old log, or the header if there was none, all of it synced; otherwise CL_ERR_UNKNOWN. |
| ManifestAnswers.AppendSucceedsExactlyWhen | src/chrono-common/src/ArchiveManifest.cpp:406-499 | append refuses a record if and only if a number does not fit, and succeeds if and only if besides nothing has latched it, the log could be opened, at once or after its directory was made again, every byte was written, sync and close worked and a log it began has its directories synced; the log is then the old one, a header if it began it or the newline asked for, and the record's line, all synced. |
| ManifestAnswers.NumbersSaturate | src/chrono-common/src/ArchiveManifest.cpp:47-66 | A publication whose numbers are too large, written by someone else, reads with each of them cut to INT64_MAX. |
| ManifestAnswers.FlagIsRead | src/chrono-common/src/ArchiveManifest.cpp:111-124 | A deletion's whole_chronicle flag reads as what it says, false as well as true. |
| ManifestAnswers.IncompleteIsNoRecord | src/chrono-common/src/ArchiveManifest.cpp:244-280 | An object without an op, with one that is no text or none of the three, or without a name or time its op needs, is no record. |
| ManifestHeader.HeaderBegins | src/chrono-common/src/ArchiveManifest.cpp:338-347 | A log with the header in front is begun by that writer at that time: its first line reads as an OPEN record with both, unless the clock is past INT64_MAX, when it reads as nothing. |
| ManifestHeader.OpenBegins | src/chrono-common/src/ArchiveManifest.cpp:349-402 | A successful open of an empty log leaves one begun by its writer at its time, and nothing else in it. |
| ManifestHeader.AppendBegins | src/chrono-common/src/ArchiveManifest.cpp:446-461 | So does an append that finds the log empty and writes all it set out to. |
| ManifestHeader.OtherStartOtherFirstLine | src/chrono-common/src/ArchiveManifest.cpp:338-347 | Logs begun by different writers or at different times have different first lines. |
| ManifestHeader.BegunAgainIsReadWhole | src/chrono-common/src/ArchiveManifest.cpp:338-402 | A log deleted and begun again by an open with another writer or clock is read whole by a tail of the old one, on the same inode and however long it has grown. |
| ManifestRun.LostKeeps | src/chrono-common/src/ArchiveManifest.cpp:369-370 | Losing any unsynced suffix of the log keeps the run's invariant: no whole, synced line goes. |
| ManifestRun.ViewAfterKeeps | src/chrono-common/src/ArchiveManifest.cpp:451-464 | Every prefix of a header or record written behind an optional newline leaves the log made of beginnings of intended lines, earlier lines untouched, the new one on a line of its own if none was open or the newline was written. |
| ManifestRun.StepKeeps | src/chrono-common/src/ArchiveManifest.cpp:349-499 | Every step (process start, open, an append's write, sync, close and what it makes of them, crash), in any order the code allows, keeps the invariant: an acknowledged append that was not glued has a whole, ended, synced line to itself. |
| ManifestRun.AcknowledgedRecordsAreRead | src/chrono-common/src/ArchiveManifest.cpp:349-499 | After any run, with any number of appends in flight at once and new ones beginning between another's failure and its flag, a reader of the log gets records of appends that wrote, each at most once and in append order, and of the acknowledged ones (nameless publications and headers excepted) exactly those that did not begin behind an open line without a newline. |
| ManifestRun.CarefulRunsLoseNothing | src/chrono-common/src/ArchiveManifest.cpp:462-485 | When open's look at the log's end works, a second open does not fail both fstat and close, and no append begins between another's failed sync or close and its flag, no record is glued and every acknowledged readable record is read. |
| ManifestRun.OneAtATimeIsCareful | src/chrono-common/src/ArchiveManifest.cpp:470-485 | A caller that lets each append return before it makes the next meets that condition. |
| ManifestRaces.BeginBeforeTheFlagLosesARecord | src/chrono-common/src/ArchiveManifest.cpp:470-478 | A run that does not: append 0's sync fails and leaves a stump, append 1 begins before theFailed is set and returns CL_SUCCESS, and the log reads as empty. |
| ManifestRaces.UnreportedLossLosesARecord | src/chrono-common/src/ArchiveManifest.cpp:465-471 | What the assumption on other descriptors is worth: if append 1's sync succeeded although append 0's failed sync had lost its line, it would be acknowledged with nothing in the log. |
| ManifestProbe.OpenLearnsTheEnd | src/chrono-common/src/ArchiveManifest.cpp:162-178 | After a successful open the next append starts on a line of its own exactly when the last-byte probe worked or no line was open. |
| ManifestProbe.AcknowledgedRecordIsReadExactlyWhen | src/chrono-common/src/ArchiveManifest.cpp:406-499 | A successful append's record is read, after all earlier ones, exactly when it was not glued to an open line; glued, the reader gets no more than before. |
| ManifestProbe.UnprobedOpenLosesARecord | src/chrono-common/src/ArchiveManifest.cpp:162-178 | Concrete run: a torn line, a restart whose probe fails, open and append both return CL_SUCCESS, and the log reads as empty. |
| ManifestTail.Fill | src/chrono-common/src/ArchiveManifest.cpp:552-574 | The inner pread loop: on success the buffer is the file's bytes, short only at an early end of file. |
| ManifestTail.ReadWindow | src/chrono-common/src/ArchiveManifest.cpp:546-584 | The doubling loop ends, with a window of the file that holds max_bytes or all that is left, and a newline or the rest of the file; it exceeds max_bytes only when its first max_bytes hold none. |
| ManifestTail.RecordsIn | src/chrono-common/src/ArchiveManifest.cpp:591-608 | The line loop returns the records of the buffer up to its last newline. |
| ManifestTail.LogTail.CheckIdentity | src/chrono-common/src/ArchiveManifest.cpp:527-537 | Another inode, fewer bytes than consumed or a changed head starts the tail over. |
| ManifestTail.LogTail.ReadNew | src/chrono-common/src/ArchiveManifest.cpp:505-617 | One call: whole lines only, every one that ends within max_bytes and at least one if there is one, no more than max_bytes unless the first line is longer, exactly the records of the bytes passed over; nothing consumed on an error. |
| ManifestTail.ReadExtends | src/chrono-common/src/ArchiveManifest.cpp:505-617 | A call moves the tail on by exactly the records of the bytes it passes, and moves it whenever a complete unread line exists. |
| ManifestTail.ShrinkKeeps | src/chrono-common/src/ArchiveManifest.cpp:505-617 | A log that loses bytes the tail has not consumed is still the log the tail follows. |
| ManifestTail.PiecesAddUp | src/chrono-common/src/ArchiveManifest.cpp:505-617 | Any calls with any max_bytes and read outcomes, interleaved with growth, return in total exactly the records between the tail's first and last offset. |
| ManifestTail.FreshPiecesAddUp | src/chrono-common/src/ArchiveManifest.cpp:505-617 | For a new tail the total is the records of log[0..offset). |
| ManifestTail.DrainedMeansAll | src/chrono-common/src/ArchiveManifest.cpp:586-590 | Once no complete line is unread, the consumed bytes hold every record of the log. |
| ManifestTail.StartsOverExactly | src/chrono-common/src/ArchiveManifest.cpp:527-537 | A call starts over if and only if the inode changed, bytes went missing, or the remembered head is unreadable or not a prefix of the file. |
| ManifestTail.ReplacementCalls | src/chrono-common/src/ArchiveManifest.cpp:527-537 | While another log stands under the name, calls return nothing until one finds it, and from then on in total exactly its consumed records from its start. |
| ManifestTail.ReplacedLogIsReadWhole | src/chrono-common/src/ArchiveManifest.cpp:610-628 | The same from the first lines alone: same inode, size at or past the offset, but another first line of less than 64 KiB. |
| ManifestTail.LongFirstLinesAreConfused | src/chrono-common/src/ArchiveManifest.cpp:26-28 | Past 64 KiB two different first lines pass for one log. |
| ManifestTail.UnreadHeadRepeats | src/chrono-common/src/ArchiveManifest.cpp:619-628 | A head that cannot be read back makes the tail return the log's records again from its start. |
| ManifestTheorem.FreshTailReturnsAcknowledged | src/chrono-common/src/ArchiveManifest.cpp:349-617 | Writer and reader together: after any run a drained fresh tail has returned records of appends that wrote, each at most once and in order, and of the acknowledged readable ones exactly those not glued; in a careful run that is all of them. |
| ManifestTheorem.LiveTailReturnsAcknowledged | src/chrono-common/src/ArchiveManifest.cpp:349-617 | The same for a tail that follows the log while the grapher appends, fails, crashes and restarts, provided no byte it has consumed is taken back. |
| ManifestTheorem.SyncedIsSpared | src/chrono-common/src/ArchiveManifest.cpp:465-471 | Bytes already synced are never taken back, so a tail that is not past them meets that condition. |
| ManifestOverrun.LiveTailMissesARecord | src/chrono-common/src/ArchiveManifest.cpp:586-608 | A run that does not meet it: the tail consumes an unsynced line, a crash takes it back, and the tail passes over the acknowledged record that takes its place. |
| DurableWrite.KeeperClient.SendDurable | client/cpp/src/KeeperRecordingClient.h:86-148 | One attempt's classification and keeper code; the answered flag is set by an answer and never cleared. |
| DurableWrite.LogDurableEvent | client/cpp/src/StorytellerClient.cpp:150-237 | The retry loop's code and event_time are those of the verdict on its turns, each attempt meeting its client's flag. |
| DurableWrite.LogEvent | client/cpp/src/StorytellerClient.cpp:96-146 | The guards, the plain send and the durable path, with the code and event_time of each. |
| DurableWrite.FirstAnswerDecides | client/cpp/src/StorytellerClient.cpp:183-195 | If the turns before the j-th were sent and went unanswered and the j-th is answered c, exactly j + 1 attempts are sent and the code is c, unless j > 0 and c is UNAVAILABLE or FULL, when it is DURABILITY_UNKNOWN. |
| DurableWrite.MissingRpcDecides | client/cpp/src/StorytellerClient.cpp:196-206 | If instead the j-th finds a keeper that is there but has no such RPC, the loop ends with UNAVAILABLE at the first attempt and DURABILITY_UNKNOWN later. |
| DurableWrite.NoAnswerUsesEveryTurn | client/cpp/src/StorytellerClient.cpp:207-237 | If no turn decides, every one is sent up to the first without a keeper, and the code is NO_KEEPERS if none was, DURABILITY_UNKNOWN otherwise. |
| DurableWrite.SuccessExactlyWhen | client/cpp/src/StorytellerClient.cpp:183-195 | CL_SUCCESS if and only if the first turn that decides is an answer of CL_SUCCESS. |
| DurableWrite.TimeExactly | client/cpp/src/StorytellerClient.cpp:150-237 | event_time is given if and only if the code is CL_SUCCESS or CL_ERR_DURABILITY_UNKNOWN. |
| DurableWrite.SuccessIsStored | client/cpp/src/StorytellerClient.cpp:183-195 | CL_SUCCESS: the last attempt sent stored the event. |
| DurableWrite.DenialIsImmediate | client/cpp/src/StorytellerClient.cpp:183-206 | UNAVAILABLE, FULL or the client's own NO_KEEPERS comes only when no earlier attempt went unanswered. |
| DurableWrite.DenialIsWrongExactlyWhen | client/cpp/src/StorytellerClient.cpp:150-237 | With keepers whose answers are true and nothing assumed of attempts without one, a denial is wrong if and only if the first attempt met NO_MATCH at a client without an answer so far, the probe was answered, and that attempt stored the event or still may. |
| DurableWrite.DenialIsSound | client/cpp/src/StorytellerClient.cpp:150-237 | What a caller can check: unless the first attempt met NO_MATCH at a client that never had an answer, a denial means no attempt stored the event and none still out can. |
| DurableWrite.NoKeepersMeansNothingSent | client/cpp/src/StorytellerClient.cpp:227-232 | The client's own NO_KEEPERS: no attempt was sent. |
| DurableWrite.UnknownHasAReason | client/cpp/src/StorytellerClient.cpp:150-237 | DURABILITY_UNKNOWN: a keeper said so or an attempt went unanswered. |
| DurableWrite.RestartBetweenForwardAndProbe | client/cpp/src/KeeperRecordingClient.h:76-85 | A keeper that stores, dies and is back for the probe makes that denial wrong; one that had answered before does not. |
| LastN.LastSize | client/cpp/include/chronolog_types.h:23-25 | The last n of a set of event sequences are min(n, size) many. |
| LastN.LastOfUnion | client/cpp/src/KeeperTailReader.cpp:64-125 | The last n of the keepers' own last n are the last n of all their tails. |
| TailGather.Phase1 | client/cpp/src/KeeperTailReader.cpp:43-87 | The merged map holds exactly the sequences named, each with a keeper that named it; the tally counts every non-null keeper once. |
| TailGather.Select | client/cpp/src/KeeperTailReader.cpp:117-125 | The backward walk requests exactly the last n keys, each once, from the keeper the map gives. |
| TailGather.Phase2 | client/cpp/src/KeeperTailReader.cpp:127-182 | The assembled map holds exactly the delivered sequences, each with an event some asked keeper sent; the tally separates answers, timeouts and errors. |
| TailGather.InOrder | client/cpp/src/KeeperTailReader.cpp:207-208 | The result lists the assembled events in strictly ascending order. |
| TailGather.GatherStoryTail | client/cpp/src/KeeperTailReader.cpp:19-232 | Code and events of the whole read: strictly ascending, every event one that an asked keeper sent, at most n and only selected ones if keepers return only what was asked. |
| TailGather.SelectionIsGlobal | client/cpp/src/KeeperTailReader.cpp:64-125 | When every keeper answers phase 1 with its own last n, the selection is the last min(n, size) of all tails together, each from a keeper that holds it. |
| TailGather.SuccessMeansComplete | client/cpp/src/KeeperTailReader.cpp:210-231 | With every phase-2 call answered, CL_SUCCESS if and only if all selected events came back, otherwise CL_ERR_PARTIAL_RESULT. |
| TailGather.HealthyReadIsTheLastN | client/cpp/src/KeeperTailReader.cpp:19-232 | When every keeper names its own last n and sends in full what it is asked for, the read succeeds with exactly the last min(n, size) events of all tails together, contents included, in ascending order. |
| TailGather.EmptySuccessIsAnAnswer | client/cpp/src/KeeperTailReader.cpp:89-115 | An empty CL_SUCCESS for n > 0 means some keeper answered phase 1. |
| TailOutcomes.SilenceIsAnError | client/cpp/src/KeeperTailReader.cpp:89-115 | A read in which no keeper asked in phase 1, or none asked in phase 2, answers has no events and is QUERY_TIMED_OUT if and only if one of those timed out, otherwise UNKNOWN. |
| TailOutcomes.MixedReadSucceeds | client/cpp/src/KeeperTailReader.cpp:184-231 | When some keepers asked in phase 2 answer truly and others do not, the read is CL_SUCCESS with exactly the selected events whose keeper answered, in ascending order. |
| TailOutcomes.LeftOutAreEarlier | client/cpp/include/chronolog_types.h:23-25 | Nothing that the last n leave out is later than anything they take, and they are then n many. |
| SqlLexer.Tokenizer.Tokenize | plugins/chrono-sql/src/chronosql_sql_parser.cpp:64-136 | The loop ends with the tokens of the text or the first bad offset, and exactly one End token, in the last place. |
| SqlLexer.Tokenizer.ReadString | plugins/chrono-sql/src/chronosql_sql_parser.cpp:147-170 | A literal's text with doubled quotes undone, or an error at its opening quote. |
| SqlLexer.Tokenizer.ReadNumber | plugins/chrono-sql/src/chronosql_sql_parser.cpp:172-198 | A sign, digits and at most one dot; Decimal exactly when a dot was read. |
| SqlLexer.Tokenizer.ReadIdent | plugins/chrono-sql/src/chronosql_sql_parser.cpp:200-217 | The longest run of identifier characters, lower-cased, spelling kept. |
| SqlLexer.TokensEnd | plugins/chrono-sql/src/chronosql_sql_parser.cpp:64-136 | Every tokenized text has one End token, placed last. |
| SqlParser.Parser.ReadColumns | plugins/chrono-sql/src/chronosql_sql_parser.cpp:316-353 | The column list, optional types and ignored lengths, or the offset that does not fit. |
| SqlParser.Parser.ReadInsert | plugins/chrono-sql/src/chronosql_sql_parser.cpp:365-420 | INSERT with an optional column list and the count check. |
| SqlParser.Parser.ReadWhere | plugins/chrono-sql/src/chronosql_sql_parser.cpp:445-506 | BETWEEN on __ts with its bounds converted, or an equality with a literal or NULL. |
| SqlParser.Parser.Parse | plugins/chrono-sql/src/chronosql_sql_parser.cpp:227-265 | The statement or the offending offset; on success the index stands on the End token, and it never passes it. |
| SqlParser.ParseSql | plugins/chrono-sql/src/chronosql_sql_parser.cpp:513-519 | Tokenizer and parser together compute the statement of the text or the error offset. |
| SqlLexemes.TokenizesExactly | plugins/chrono-sql/src/chronosql_sql_parser.cpp:64-217 | The tokenizer takes exactly the texts that spell words, marks, quoted texts and numbers one after the other, blanks anywhere and needed only where one would run into the next, and reads them as these. |
| SqlLexemes.RefusedWhereNothingBegins | plugins/chrono-sql/src/chronosql_sql_parser.cpp:64-217 | A text that is refused by the tokenizer is refused at its first character, blanks aside, that begins no word, mark, text or number; what is before it spells some. |
| SqlGrammar.TypeExactly | plugins/chrono-sql/src/chronosql_sql_parser.cpp:331-347 | A column type is named by its words, in any case, and by no others. |
| SqlGrammar.BoundExactly | plugins/chrono-sql/src/chronosql_sql_parser.cpp:457-481 | A BETWEEN bound is a whole number of at most 64 bits, and with a minus what is left to 2^64. |
| SqlGrammar.ParsesExactlyTheGrammar | plugins/chrono-sql/src/chronosql_sql_parser.cpp:227-519 | For every text and statement: the parser returns the statement if and only if the text spells it by the grammar, which is said once, without the parser: optional types and lengths, column lists and the count check, values quoted, bare or NULL, both WHERE forms, an optional semicolon. |
| SqlRoundTrip.NumbersNeedNoQuotes | plugins/chrono-sql/src/chronosql_sql_parser.cpp:390-406 | With any of its numbers, in VALUES and in WHERE, written without quotes, and any blanks and capitals, a statement's text parses to the same tree. |
| SqlRoundTrip.ParseUndoesRender | plugins/chrono-sql/src/chronosql_sql_parser.cpp:227-519 | For every well-formed statement, arbitrary literal text included, parsing its canonical text gives the statement back. |
| SqlImage.RoundTripCoversTheParser | plugins/chrono-sql/src/chronosql_sql_parser.cpp:227-519 | A statement comes back from its canonical text if and only if it is well formed, and if and only if the parser returns it for some text at all. |
| SqlCase.CaseDoesNotMatter | plugins/chrono-sql/src/chronosql_sql_parser.cpp:200-217 | Statements that differ only in letter case outside literals parse to the same tree, column types included, or fail at the same offset. |
| SqlSchema.MetadataState.Apply | plugins/chrono-sql/src/chronosql_metadata.cpp:53-122 | One payload's effect on the state, names and types that are not strings taken as their JSON text; malformed payloads change nothing. |
| SqlSchema.MetadataState.DoCreate | plugins/chrono-sql/src/chronosql_metadata.cpp:156-170 | A repeated create changes nothing; a new table goes to the end of the order once. |
| SqlSchema.MetadataState.DoDrop | plugins/chrono-sql/src/chronosql_metadata.cpp:172-176 | A drop removes the schema and keeps the order entry. |
| SqlSchema.MetadataState.ListTables | plugins/chrono-sql/src/chronosql_metadata.cpp:136-148 | The names with a live schema, in stored order. |
| SqlSchema.DecodeUndoesEncode | plugins/chrono-sql/src/chronosql_metadata.cpp:36-122 | A schema operation over NUL-free names reads back as itself. |
| SqlSchema.StateByTable | plugins/chrono-sql/src/chronosql_metadata.cpp:53-176 | After any operations each table's schema is the first create since its last drop, and the order is that of first creation. |
| SqlSchema.ListedTables | plugins/chrono-sql/src/chronosql_metadata.cpp:136-148 | listTables has no duplicates, names exactly the live tables, in order of first creation. |
| SqlSchema.ReplayOfEncoded | plugins/chrono-sql/src/chronosql_mapper.cpp:32-48 | Replaying encoded operations is applying them. |
| SqlRows.RowComesBackExactly | plugins/chrono-sql/src/chronosql_row_codec.cpp:11-59 | A row over NUL-free column names, encoded in the map's key order, decodes to its values cut at the first NUL, so to itself if and only if no value holds one. |
| TimeSort.SortRestores | plugins/chrono-sql/src/chronosql_mapper.cpp:41-46 | However a shuffled log with strictly rising timestamps is sorted, the result is the log. |
| SqlMapper.Mapper.EnsureLoaded | plugins/chrono-sql/src/chronosql_mapper.cpp:32-48 | One replay, sorted by time in some order among equal timestamps, folded into the state; a timeout counts as an empty story; an exception leaves it to be tried again. |
| SqlMapper.Mapper.ValidColumns | plugins/chrono-sql/src/chronosql_mapper.cpp:71-90 | Accepts exactly a non-empty list of distinct, non-empty, unreserved names. |
| SqlMapper.Mapper.CreateTable | plugins/chrono-sql/src/chronosql_mapper.cpp:61-102 | State and outcome of a create, each refusal included; memory changes even when the append was dropped. |
| SqlMapper.Mapper.DropTable | plugins/chrono-sql/src/chronosql_mapper.cpp:104-114 | State and outcome of a drop. |
| SqlMapper.Mapper.Insert | plugins/chrono-sql/src/chronosql_mapper.cpp:143-154 | A row's encoded text goes to its own table's story, only to a known table and with declared columns. |
| SqlMapper.LiveNamesAreProper | plugins/chrono-sql/src/chronosql_mapper.cpp:61-90 | No live table's name starts with "__" or holds a NUL, and its columns passed the checks of CREATE. |
| SqlMapper.MemoryIsReplay | plugins/chrono-sql/src/chronosql_mapper.cpp:32-114 | In every run with stored, rising appends a loaded process's schema state equals a fresh state folded over the metadata story however it is sorted by time; listTables is right; no row is in the metadata story. |
| SqlMapper.AgreesExactlyWhenStored | plugins/chrono-sql/src/chronosql_mapper.cpp:50-50 | Any create or drop that reports success and changes memory leaves memory and log in agreement if and only if its append was stored. |
| SqlMapper.CheckedOpsAreEffective | plugins/chrono-sql/src/chronosql_mapper.cpp:93-112 | Every create and drop that passes its presence check does change memory. |
| SqlMapper.TimedOutAgreesExactlyWhen | plugins/chrono-sql/src/chronosql_mapper.cpp:32-48 | A timed-out load agrees with the log if and only if no table was ever created. |
| SqlOutcomes.CreateExactly | plugins/chrono-sql/src/chronosql_mapper.cpp:61-102 | Over the operations in the log: CREATE is invalid exactly for an empty or reserved name, no columns or an empty, reserved or repeated one, fails exactly when the table exists or the append throws, and otherwise adds exactly its encoding to the log and the table to memory; no row changes. |
| SqlOutcomes.DropExactly | plugins/chrono-sql/src/chronosql_mapper.cpp:104-114 | DROP fails exactly when there is no such table or the append throws, and otherwise adds exactly its encoding and takes the table out of memory; no row changes. |
| SqlOutcomes.InsertExactly | plugins/chrono-sql/src/chronosql_mapper.cpp:125-154 | INSERT into a table that does not exist fails, one with a column its CREATE did not declare is invalid, and otherwise its story and no other gains exactly the row's encoding if the append stored it. |
| SqlOutcomes.InsertAnswers | plugins/chrono-sql/src/chronosql.cpp:189-221 | What executing an INSERT answers, each refusal told apart; the timestamp of the stored row otherwise. |
| SqlOutcomes.SchemaStatementAnswers | plugins/chrono-sql/src/chronosql.cpp:179-188 | What executing a CREATE or a DROP answers, and that only one that answers nothing adds to the log. |
| SqlForeign.ForeignCreateReads | plugins/chrono-sql/src/chronosql_metadata.cpp:79-116 | A CREATE payload from elsewhere makes its table with its named columns, each of the type its word names in any case, STRING without one or with an unknown one. |
| SqlForeign.OtherNamesAreTheirText | plugins/chrono-sql/src/chronosql_metadata.cpp:71-77 | A name that is no JSON string names the table by its text, which but for blanks outside strings is the value's compact text. |
| SqlForeign.OtherPayloadsChangeNothing | plugins/chrono-sql/src/chronosql_metadata.cpp:70-121 | A payload without an op or a name, with another op, or a CREATE without columns leaves the schemas as they are. |
| SqlForeign.ForeignRowReads | plugins/chrono-sql/src/chronosql_row_codec.cpp:44-57 | A row from elsewhere keeps texts as they are and any other value as a text that reads back as that value. |
| SqlQuery.ReadRows | plugins/chrono-sql/src/chronosql_mapper.cpp:164-208 | The decoded rows of the replayed events in the order they came; events whose text is no JSON object are skipped. |
| SqlQuery.KeepMatching | plugins/chrono-sql/src/chronosql_mapper.cpp:224-232 | remove_if leaves exactly the matching rows, in order. |
| SqlQuery.Fetch | plugins/chrono-sql/src/chronosql.cpp:229-256 | The range asked of the replay for each WHERE form, BETWEEN as a half-open range that may throw, and the rows made of what it returns. |
| SqlQuery.ProjectRows | plugins/chrono-sql/src/chronosql.cpp:148-170 | Each row keeps its timestamp and the asked columns it has, __ts aside. |
| SqlQuery.WholeRowExactly | plugins/chrono-sql/src/chronosql.cpp:148-170 | A projected row is the row itself if and only if it has no column that was not asked for, __ts aside. |
| SqlQuery.FilterThenProject | plugins/chrono-sql/src/chronosql.cpp:229-258 | Filtering before or after projecting gives the same rows when the WHERE's column is among those asked for. |
| SqlQuery.BuildRow | plugins/chrono-sql/src/chronosql.cpp:205-217 | The row of an INSERT: NULLs omitted, the first of a repeated name kept. |
| SqlQuery.RowHoldsItsValues | plugins/chrono-sql/src/chronosql.cpp:209-217 | With distinct names the row holds exactly the values that are not NULL. |
| SqlQuery.Execute | plugins/chrono-sql/src/chronosql.cpp:174-263 | A statement's text to its answer and new state; a parse error changes nothing. |
| SqlQuery.SelectIsFilter | plugins/chrono-sql/src/chronosql.cpp:229-256 | Whatever order the replay brings its range in, the projected rows are those of the unrestricted scan filtered by the WHERE, each as often, and the same sequence when it keeps story order. |
| SqlQuery.ThrownRangeIsEmpty | plugins/chrono-sql/src/chronosql_mapper.cpp:187-190 | Where it throws, the filter would have been empty. |
| SqlAnswers.RefusedRangeExactly | plugins/chrono-sql/src/chronosql_mapper.cpp:185-193 | A BETWEEN is refused if and only if no timestamp below UINT64_MAX can be in it. |
| SqlAnswers.ScanIsEverything | plugins/chrono-sql/src/chronosql_mapper.cpp:164-183 | The full scan has a row for every well-formed event of the story stamped below UINT64_MAX. |
| SqlAnswers.FetchedExactly | plugins/chrono-sql/src/chronosql.cpp:229-256 | A row of the full scan is in the answer as often as in the scan if it has a value under c equal to v (c = 'v'), if it has none (c = NULL), if its time is in the range (BETWEEN), or always (no WHERE), and not at all otherwise; whatever order the replay comes in. |
| SqlAnswers.InsertAddsToAnswer | plugins/chrono-sql/src/chronosql.cpp:189-256 | After a stored INSERT the answer to a SELECT of all columns has the rows it had before and, if and only if the inserted row is what its WHERE asks for, that row. |
| SqlAnswers.InsertIsFoundByItsValue | plugins/chrono-sql/src/chronosql.cpp:205-256 | In the statement's own terms: WHERE c = 'v' gains the row if and only if the INSERT writes v under c, and WHERE c = NULL if and only if it writes nothing or NULL there. |
| SqlAnswers.FirstValueStays | plugins/chrono-sql/src/chronosql.cpp:209-217 | Of several values for one name the row has the first that is not NULL. |
| SqlQuery.SelectAnswers | plugins/chrono-sql/src/chronosql.cpp:222-260 | The canonical text of a SELECT, executed, answers with filter then projection over the table's events in the replay's order, or the exact refusal; it throws if and only if a BETWEEN has lo > hi or lo = UINT64_MAX. |
| SqlQuery.InsertedRowIsSelected | plugins/chrono-sql/src/chronosql.cpp:189-221 | A stored INSERT adds one row to the table's full scan, in story order the last, with its values cut at their first NUL, so as inserted if and only if no value holds a NUL, and changes no other table. |
| SqlQuery.SelectStarReturnsTheInsertedRow | plugins/chrono-sql/src/chronosql.cpp:136-260 | SELECT * after it returns the rows it would have returned before and that one with all its columns, in whatever order the replay comes, and that one last when it keeps story order. |
| SqlQuery.RecreatedTableShowsOldRows | plugins/chrono-sql/include/chronosql.h:100-105 | A table dropped and created again under its name selects every row its story ever got, those from before the drop included, each cut to the new columns. |
| LdmsRegistry.Bridge.AcquireStoryLocked | plugins/chrono-ldms/src/chronolog_bridge.cpp:396-436 | Sharing, acquiring, and giving back what could not be kept. |
| LdmsRegistry.Bridge.ReleaseStoryLocked | plugins/chrono-ldms/src/chronolog_bridge.cpp:440-452 | Drops one reference; the last one releases, unregisters and frees. |
| LdmsRegistry.Bridge.OpenStore | plugins/chrono-ldms/src/chronolog_bridge.cpp:454-483 | A handle with no story yet, only when connected. |
| LdmsRegistry.Bridge.StoreSample | plugins/chrono-ldms/src/chronolog_bridge.cpp:485-544 | Finds or acquires the producer's story, once per handle, and names it as the target of the sample; EIO when the send fails, with the registry as it then is. |
| LdmsRegistry.Bridge.CloseStore | plugins/chrono-ldms/src/chronolog_bridge.cpp:546-561 | The stories only this store uses are released, each once, and leave the registry; those it shares lose one reference; the store goes and everything else stays. |
| LdmsRegistry.Bridge.Attach | plugins/chrono-ldms/src/chronolog_bridge.cpp:563-567 | Counts one more instance. |
| LdmsRegistry.Bridge.Detach | plugins/chrono-ldms/src/chronolog_bridge.cpp:569-605 | Only the last instance releases what is registered, each story once, and disconnects. |
| LdmsRegistry.KeyInjective | plugins/chrono-ldms/src/chronolog_bridge.cpp:398-398 | The registry key tells container and story apart unless one container's name followed by '/' begins the other's. |
| LdmsRegistry.KeysCollideExactly | plugins/chrono-ldms/src/chronolog_bridge.cpp:398-398 | Two different containers have stories with the same key if and only if one's name followed by '/' begins the other's. |
| LdmsRegistry.StepKeeps | plugins/chrono-ldms/src/chronolog_bridge.cpp:396-605 | Every step keeps: refs equals the number of handles mapping to the story, every pointer live, acquisitions and releases balanced. |
| LdmsRegistry.DetachKeeps | plugins/chrono-ldms/src/chronolog_bridge.cpp:569-605 | With every store closed the last detach finds nothing left to release. |
| LdmsRegistry.RegistryIsSound | plugins/chrono-ldms/src/chronolog_bridge.cpp:396-605 | In every run, whatever the containers are called, each story's refs is the number of open handles mapping to it, every story pointer in a handle is live and registered under the handle's key, and each acquisition is matched by one release, made when its last reference goes. |
| LdmsRegistry.OwnContainerExactly | plugins/chrono-ldms/src/chronolog_bridge.cpp:396-436 | In every run over given containers each handle's pointers are to its own container's stories, if and only if no two of the containers' names clash. |
| LdmsRegistry.ClashSharesAStory | plugins/chrono-ldms/src/chronolog_bridge.cpp:396-436 | For any two clashing containers a run in which the second one's store gets the first one's story. |
| LdmsRegistry.NothingHeldWhenClosed | plugins/chrono-ldms/src/chronolog_bridge.cpp:546-605 | When no store is open, nothing is registered and every acquisition has been released. |
| LdmsStories.SameNameExactlyWhen | plugins/chrono-ldms/src/chronolog_bridge.cpp:88-101 | Under one schema two producers have the same story name if and only if they agree once every character a name does not keep is '_'. |
| LdmsStories.SchemasMeetExactlyWhen | plugins/chrono-ldms/src/chronolog_bridge.cpp:490-499 | Two schemas of a container have a story name in common if and only if one is the other, a '_' and characters a name keeps. |
| LdmsStories.SampleGoesToItsStory | plugins/chrono-ldms/src/chronolog_bridge.cpp:501-524 | A sample goes to the story registered under its container and its name, and the store keeps it under that name. |
| LdmsStories.OkMeansLogged | plugins/chrono-ldms/src/chronolog_bridge.cpp:509-544 | OK if and only if a story was had and log_event answered with a timestamp; without a story nothing changes and nothing more is held. |
| LdmsStories.SameStoryExactlyWhen | plugins/chrono-ldms/src/chronolog_bridge.cpp:490-524 | In every run two samples through one store, whatever happens between them short of closing it, go to the same story if and only if their producers agree once folded. |
| LdmsStories.OpenStoresMeanConnected | plugins/chrono-ldms/src/chronolog_bridge.cpp:454-483 | In every run a store is open only while the client is connected. |
| LdmsStories.InstancesAreCounted | plugins/chrono-ldms/src/chronolog_bridge.cpp:563-605 | As long as nobody detaches that has not attached, the count is attaches less detaches. |
| LdmsJson.JsonString | plugins/chrono-ldms/src/chronolog_bridge.cpp:130-169 | The loop reads no further than max_len or the first NUL and writes exactly the escaped characters between quotes. |
| LdmsJson.MetricTextReadsBack | plugins/chrono-ldms/src/chronolog_bridge.cpp:121-169 | What it writes is one JSON string that reads back as the characters taken, and bytes beyond the bound or the NUL never show. |
| LdmsJson.TerminatedTextIsTakenWhole | plugins/chrono-ldms/src/chronolog_bridge.cpp:121-138 | A NUL-terminated text within the bound is taken whole. |
| PubSub.Subscription.PollOnce | plugins/chrono-pubsub/src/chronopubsub_mapper.cpp:173-258 | One turn of the loop: replay, sort (any order among equal stamps), hand on from the watermark, stop request, watermark moved past the last message. |
| PubSub.Subscription.Run | plugins/chrono-pubsub/src/chronopubsub_mapper.cpp:173-259 | The worker's loop is those turns until it is stopped. |
| PubSub.PollKeeps | plugins/chrono-pubsub/src/chronopubsub_mapper.cpp:177-252 | A turn keeps deliveries ordered, below the watermark and unrepeated if its answer is; a failed or partial replay changes neither; without a stop request everything returned is handed on and the watermark stands just past the newest. |
| PubSub.StoppedPollDelivers | plugins/chrono-pubsub/src/chronopubsub_mapper.cpp:219-252 | A stop request after n messages of a poll leaves exactly those n delivered and the watermark just past the last of them. |
| PubSub.SubscriberSeesEachOnce | plugins/chrono-pubsub/src/chronopubsub_mapper.cpp:173-259 | Over any run stamps and watermark never go back, and each message is delivered at most once if no replay repeats one within an answer. |
| PubSub.NothingReturnedIsDropped | plugins/chrono-pubsub/src/chronopubsub_mapper.cpp:201-252 | Until a stop request the deliveries are the messages the successful replays returned, each as often as returned, in rising order of stamps, however equal stamps were arranged. |
| PubSub.SeenExactlyWhen | plugins/chrono-pubsub/src/chronopubsub_mapper.cpp:177-252 | Over a story that grows, a message that some successful replay is the first to be able to see is delivered if and only if it is not stamped before that poll's watermark. |
| PubSub.LateMessagesAreSkipped | plugins/chrono-pubsub/src/chronopubsub_mapper.cpp:219-252 | In a new subscription's terms: if and only if it is stamped no earlier than the start and later than everything delivered before it could be seen, so one that appears late with an equal or earlier stamp is never delivered. |
| PubSub.LastStampComesAgain | plugins/chrono-pubsub/src/chronopubsub_mapper.cpp:236-251 | A message stamped UINT64_MAX, outside the replay's range, would come again with every poll. |
| ArchiveNames.EncodeArchiveName | src/chrono-common/include/ArchiveLayout.h:35-73 | The loop computes the encoding of any name. |
| ArchiveNames.NameRoundTrip | src/chrono-common/include/ArchiveLayout.h:27-73 | The encoding can be undone. |
| ArchiveNames.NamesStayApart | src/chrono-common/include/ArchiveLayout.h:27-73 | Different names have different encodings. |
| ArchiveNames.EncodedIsADirectoryName | src/chrono-common/include/ArchiveLayout.h:32-73 | An encoded name is not empty, holds no '/' or NUL, and is not ".", ".." or "%manifest". |
| ArchiveNames.WrittenAsTypedExactly | src/chrono-common/include/ArchiveLayout.h:27-31 | A name is its own encoding if and only if it is not empty, "." or ".." and holds no '%', '/' or NUL. |
| ArchiveNames.EscapesAreHex | src/chrono-common/include/ArchiveLayout.h:32-34 | Every '%' in an encoded name is followed by two hex digits, or ends the encoding of the empty name. |
| ArchiveNames.ParsesExactlyThePattern | src/chrono-common/include/ArchiveLayout.h:108-132 | A file name is parsed if and only if it is in the pattern and its five numbers fit in 64 bits. |
| ArchiveNames.WindowNameRoundTrip | src/chrono-common/include/ArchiveLayout.h:88-132 | A window file's name with a numeric writer tag, or its partial file's, gives its fields back. |
| ArchiveNames.StoryTextInjective | src/chrono-common/include/StoryIdOf.h:13-22 | The hashed text tells chronicle and story apart. |
| ExtractionQueue.ChunkQueue.StashStoryChunk | src/chrono-common/include/StoryChunkExtractionQueue.h:27-40 | Appends a chunk, ignores a null one. |
| ExtractionQueue.ChunkQueue.StashStoryChunks | src/chrono-common/include/StoryChunkExtractionQueue.h:42-61 | Appends the non-null chunks in order. |
| ExtractionProgress.ChunksOfParts | src/chrono-common/include/StoryChunkExtractionQueue.h:27-61 | Stashing a list is stashing its parts one after the other, and only null chunks are left out. |
| ExtractionQueue.ChunkQueue.EjectStoryChunk | src/chrono-common/include/StoryChunkExtractionQueue.h:63-79 | Takes the oldest and counts it in process. |
| ExtractionQueue.ChunkQueue.ChunkProcessed | src/chrono-common/include/StoryChunkExtractionQueue.h:81-90 | Counts one chunk done, never below zero. |
| ExtractionQueue.ChunkQueue.IsIdle | src/chrono-common/include/StoryChunkExtractionQueue.h:92-100 | Nothing waiting and nothing in process. |
| ExtractionQueue.StepKeeps | src/chrono-common/include/StoryChunkExtractionModule.h:89-227 | Every step of every worker, stasher, start and shutdown call keeps: chunks ejected are in hand or processed, inProcess counts those in hand, a worker past which a call has joined stays finished, and what was stashed when a returned call last looked is processed or in another call's hands. |
| ExtractionQueue.IdleExactlyWhenAllProcessed | src/chrono-common/include/StoryChunkExtractionQueue.h:63-100 | In every interleaving stashed = waiting + in process + processed, oldest first, and idle() if and only if every stashed chunk has been processed. |
| ExtractionQueue.ShutdownReturnsDrained | src/chrono-common/include/StoryChunkExtractionModule.h:175-227 | After a draining shutdown call has returned, in every interleaving with starts and other calls: what was stashed before its last look is processed unless another call that passed the check has a chunk in hand, and with nothing stashed since, idle() if and only if there is no such call. |
| ExtractionQueue.WorkersAreGoneAtReturn | src/chrono-common/include/StoryChunkExtractionModule.h:220-223 | At the step in which such a call returns every worker is finished, whatever starts there have been. |
| ExtractionQueue.OnlyLateWorkersAreLeft | src/chrono-common/include/StoryChunkExtractionModule.h:142-173 | Afterwards a worker is left running if and only if one that a start created after the return is; those the call found stay finished. |
| ExtractionQueue.LoneShutdownLeavesItIdle | src/chrono-common/include/StoryChunkExtractionModule.h:175-227 | A call that no other overlaps at the check leaves the queue idle, whatever starts there have been. |
| ExtractionQueue.RacingShutdownsReturnEarly | src/chrono-common/include/StoryChunkExtractionModule.h:178-184 | Concrete run: two calls pass the check, one returns while the other still processes the last chunk. |
| ExtractionQueue.LateStartOutlivesShutdown | src/chrono-common/include/StoryChunkExtractionModule.h:142-173 | Concrete run: a start reads INITIALIZED, a shutdown runs to its end, and the start then sets RUNNING and makes a worker that nobody joins. |
| ExtractionProgress.WorkerTakesTheOldest | src/chrono-common/include/StoryChunkExtractionModule.h:118-140 | While the module runs, four turns of a worker at the head of its loop process the oldest chunk and bring it back. |
| ExtractionProgress.WorkerDrainsTheQueue | src/chrono-common/include/StoryChunkExtractionModule.h:118-140 | So a single worker, given its turns, processes all that waits, oldest first, and nothing else changes. |
| ExtractionProgress.WorkerEnds | src/chrono-common/include/StoryChunkExtractionModule.h:102-140 | When the module is not running at most four turns end a worker wherever it stands, the chunk it has in hand processed. |
| ExtractionProgress.ShutdownCanReturn | src/chrono-common/include/StoryChunkExtractionModule.h:184-227 | In every reachable state in which the module is shutting down, a call past the check can be brought to its return by turns of its own and of the workers. |
| ExtractionProgress.StuckForever | src/chrono-common/include/StoryChunkExtractionModule.h:220-227 | With RUNNING set again behind its back and a worker unfinished, a call waits for ever unless shutdown or initialize is called again. |
| ExtractionProgress.LateStartHangsTheShutdown | src/chrono-common/include/StoryChunkExtractionModule.h:142-227 | Concrete run that comes to this: a start reads INITIALIZED and sets RUNNING while the call waits for the threads. |
| ExtractionProgress.StartMakesItsWorkers | src/chrono-common/include/StoryChunkExtractionModule.h:142-173 | A start that finds the module INITIALIZED sets it running with exactly the workers it was asked for. |
| ExtractionProgress.OtherStartsAreIgnored | src/chrono-common/include/StoryChunkExtractionModule.h:145-156 | A start that finds any other phase changes nothing. |
| ExtractionProgress.NoChainNoWorkers | src/chrono-common/include/StoryChunkExtractionModule.h:66-80 | A module whose chain was never active never runs a worker. |

## Left out

- ManifestRun.AcknowledgedRecordsAreRead: does not model a log or manifest directory removed under a running grapher; `AppendStep` has the recreation path, runs never take it.
- DurableWrite.LogEvent: does not model timestamps, event indices or the pauses between attempts; the timestamp is a parameter.
- DurableWrite.LogDurableEvent: another thread's use of the same keeper client during the call is not modelled; the lemmas about verdicts allow any flag at each attempt.
- TailGather.GatherStoryTail: fans out one keeper at a time; the RPCs' concurrency does not show in the result. No guarantee is stated for a list of null keepers only.
- The text of an LDMS sample beyond its string metrics, and the per-story lock around its send.
- LdmsRegistry.Bridge.OpenStore: connecting is one step; portal conflicts and error strings are left out.
- ExtractionQueue.StepKeeps: the module's loops appear as interleaved steps of threads rather than as one sequential method; a start makes a thread and pushes it onto `extractionThreads` in one step, so a worker made before a shutdown and pushed after its join loop (StoryChunkExtractionModule.h:160-165) is outside the model; creating a stream and flushing the extractors' outage buffers are left out.
- PubSub.Subscription.Run: the callback's own effects, sleeping, and subscribe and unsubscribe are left out.
- Json parsing is that of the compact text json-c writes: no blanks, no floating point, no null (a schema event whose op or name is null is outside the model), and \u escapes of one byte below 0x80 only.
- listArchiveManifestLogs, isWindowFileName and isPartialFileName: easy beside what is modelled.
- CityHash64 itself: `storyIdOf` is modelled up to the text it hashes.
- The plain one-argument log_event, whose zero return claims nothing.
- Handle caches, RPC transport, serialization, HDF5 files, configuration, loggers and command-line tools.
- StoryPipeline, StoryChunk merging, the receipt and watermark registry, LogEventCodec and Crc32c: not part of this model.
