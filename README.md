# seniorcap master: a Dafny model

This project models the core of the seniorcap "master" program, which hands
work to two worker processes, a downloader and an archiver. It talks to them
over named pipes (FIFOs) and keeps its job queue in a database. The model
covers:

- **CAP_PipeBuffer** (`buffer.dfy`): the fixed-size read-ahead buffer. One
  `read(2)` fills it, and `next()` then drains it one character at a time.
- **CAP_Pipe** (`pipe.dfy`, `pipe_props.dfy`): a FIFO that is opened for each
  refill of its buffer and for each write.
  - `read()` is modelled on its scratch array, copy by copy. It is proved
    equal to a step function (`DrainStep` / `Drain` / `ReadSpec`).
  - Messages are framed as command line, decimal length line, then body, by
    `sendMessage` and `getMessage`.
  - System calls are not executed. Their answers are parameters, and the pipe
    records in `calls` the calls it would issue.
- **CAP_Comp** (`comp.dfy`): the master's handle on a worker process: start
  by `fork`, stop by sending `MSG_QUIT`, plus a busy flag.
- **dosql_\*** (`sql_stmt.dfy`): the checks each database function makes on a
  parsed message body.
  - Each function returns the statements it would execute (`DbCall`), or
    `Raised` for a `CAP_Exception`, or `Crashed` when it reads past the end
    of the body.
  - The database's answers are parameters.
- **The message loop of `main`** (`master.dfy`, `master_props.dfy`): on every
  round it offers a pending job to an idle downloader and an open archive to an
  idle archiver. It then reads one message from its own pipe and acts on it.
  - `parseBody` is a loop proved equal to `Split`.
  - One round is the function `Step`, and `Run` folds it over a sequence of
    rounds.
  - `MessageLoop` is the imperative `while` loop, proved equal to `Run`.
    Its body is split into one method per branch of the loop, each proved
    equal to the matching function.
  - Sends, SQL statements and `system()` commands are recorded as `Effect`s.
- **CAP_XML lookups** (`xml.dfy`): `getValue` cuts a dotted path at every
  `.`. `searchNode` then walks an element tree, descending into the first
  child element whose tag matches.

Supporting modules:

- `wrappers.dfy`: Option, Result and Outcome.
- `strings.dfy`: `std::string::find`, splitting on a separator, and the
  C-string view of a NUL-padded buffer.
- `numerals.dfy`: `sprintf("%d")`, `"%010d"`, `atol`, `strtoul(…, 0)`, and
  32-bit wrap-around.
- `defs.dfy`: the constants of `master.h` and `pipe.h`.

Some behaviours of the code are easy to miss, and the model reproduces them:

- A frame sent by `sendMessage` is not received unchanged.
  - `read(dest, n)` keeps only `n - 1` characters, so the body loses its last
    character.
  - The frame's final newline stays in the buffer and is read as the next,
    empty, command.
  - A NUL ends every field.
  - A command line of 64 characters or more is cut at 63, and the 64th
    character is lost.
- A refill in the middle of a read stores the last character taken a second
  time.
  - The copies can therefore outgrow the scratch buffer of `length + 1`
    bytes. Either no NUL is left for `string::assign` (`"a"` refilled with
    `"b"` and `"c"`), or a store runs past the buffer (refills that deliver
    nothing).
- A failed `read(2)` or `write(2)` throws before `close()`. The descriptor
  stays set, and every later open of that pipe then fails with `IsOpen`.
- `write()` treats only a result of -1 as a failure. A short write counts as
  success.
- `dosql_job_select` reports true when there is no pending job, so an idle
  downloader is sent an empty message on every such round.
  - When a field fetch throws after the job's id was copied, it reports false
    with the id set. The downloader is then marked busy with a job it was
    never sent, and it is never polled again.
- After an SQL exception, `dosql_content_insert` still reports true, with
  content id 0. The loop then moves the file and finishes the job, and
  `dosql_archive_insert` creates the archive under id 0. Only a failure to
  fetch the new id leaves the downloader busy.
- `dosql_archive_select` can set the archive id and still report false: the
  user_id fetch, the content query or a record fetch can throw after the id
  was copied. The archiver is then never sent anything again.
- A report that arrives while no job is outstanding (`MSG_DOWNLOADED`,
  `MSG_DOWNLOADFAIL`) finishes job 0. That throws `CAPEXC_INVALPARAM`, which
  nothing catches. The same happens to an empty archive whose id is 0.
- `dosql_content_delete` never checks the length of the body.
- The component destructor throws `CAPEXC_COMPUP`, a name `master.h` never
  defines.

## Model

| member | source | states |
|---|---|---|
| Buffer.PipeBuffer.constructor | dev/buffer.cpp:17-36 | a new buffer of the given size has nothing pending |
| Buffer.NewPipeBuffer | dev/buffer.cpp:17-36 | no log gives NoErrLog; size 0 gives BufferEmpty; a negative size or failed malloc gives BufferFail; otherwise an empty buffer |
| Buffer.PipeBuffer.Next | dev/buffer.cpp:47-59 | with nothing pending: BufferEmpty and the cursor unmoved; otherwise the first pending character, and the pending characters lose their head |
| Buffer.PipeBuffer.Read | dev/buffer.cpp:63-89 | refilling a buffer with characters pending, or without a descriptor, fails with ReadFail and changes nothing; a failed read(2) empties it; otherwise the pending characters are exactly the bytes delivered |
| Pipe.RefillStep | dev/pipe.cpp:153-163 | a refill succeeds unless open(2) or read(2) fails; on success the bytes delivered, possibly none, become the window; on failure the window is unchanged |
| Pipe.DrainStep | dev/pipe.cpp:146-165 | a pass that continues takes a character or makes a refill, strictly decreasing what is left to take plus the refills left to answer |
| Pipe.Drain | dev/pipe.cpp:146-179 | the loop of read() run to its end uses no more refills than were answered |
| Pipe.ReadSpec | dev/pipe.cpp:125-180 | read() as a whole uses no more refills than were answered |
| Pipe.Pipe.constructor | dev/pipe.cpp:20-30 | a new pipe is closed, in read mode, with no path, an empty buffer and no calls issued |
| Pipe.NewPipe | dev/pipe.cpp:20-30 | no log gives NoErrLog; a failed buffer allocation gives BufferFail; otherwise a fresh closed pipe |
| Pipe.Pipe.Open | dev/pipe.cpp:41-66 | an open pipe gives IsOpen and no call; otherwise one open(2), whose descriptor is kept, or ENXIO gives IsClosed, any other error OpenFail, and the descriptor is 0 |
| Pipe.Pipe.Create | dev/pipe.cpp:71-104 | open pipe: IsOpen; empty path or bad mode: CreateFail with no call; mkfifo success or EEXIST sets path and mode; any other error gives CreateFail and leaves the descriptor at -1 |
| Pipe.Pipe.Close | dev/pipe.cpp:108-120 | a closed pipe is left alone; otherwise one close(2), and only a successful one clears the descriptor |
| Pipe.Pipe.RefillBuffer | dev/pipe.cpp:153-163 | open, buffer read and close as RefillStep; an exception skips the rest |
| Pipe.Pipe.LoopPass | dev/pipe.cpp:146-165 | one pass of the loop body equals DrainStep on the scratch array's contents |
| Pipe.Pipe.Read | dev/pipe.cpp:125-180 | the result, the new buffer, descriptor and calls, and the number of refills are those of ReadSpec |
| Pipe.WriteStep | dev/pipe.cpp:184-194 | write = open, one write(2), close; a failed write(2) throws before the close |
| Pipe.Pipe.Write | dev/pipe.cpp:184-194 | the result and new state are those of WriteStep |
| Pipe.Pipe.SendMessage | dev/pipe.cpp:230-262 | a pipe that is not write-only gives WrongMode and changes nothing; otherwise it writes Frame(m) and reports whether the write passed |
| Pipe.Pipe.GetMessage | dev/pipe.cpp:198-226 | a pipe that is not read-only gives WrongMode; otherwise three reads (command line, length line, body) as Receive |
| PipeProps.UntilNulPadded | dev/pipe.cpp:172-175 | a buffer padded with NULs reads as the string it starts with |
| PipeProps.DrainWindow | dev/pipe.cpp:146-170 | served from the buffer, the loop stops right after the first character at which its test fails |
| PipeProps.DrainFromLater | dev/pipe.cpp:146-170 | from the loop's start, a buffer whose first character passes the loop test is taken up to and including the first character that fails it |
| PipeProps.DrainFrom | dev/pipe.cpp:146-176 | from the loop's start, after any number of refills, a buffer that holds the stopping character gives the characters before it, the rest staying pending |
| PipeProps.ReadWindow | dev/pipe.cpp:125-180 | a read served from the buffer returns the characters before the stopping one and leaves the rest pending |
| PipeProps.FinishDone | dev/pipe.cpp:172-176 | a loop ending with at most length copies assigns the C string they begin with |
| PipeProps.LineRead | dev/pipe.cpp:209-210 | a line shorter than 64 characters is read up to its newline, which is consumed and not kept |
| PipeProps.LongLine | dev/pipe.cpp:209-210 | a line of 64 or more characters gives its first 63; the 64th is lost and the rest stays pending |
| PipeProps.FixedRead | dev/pipe.cpp:214 | a read of n characters without a delimiter consumes n and returns the first n - 1 |
| PipeProps.RefillRepeats | dev/pipe.cpp:146-163 | after a refill mid-read the previous character is stored twice |
| PipeProps.DrainFailsWithReadFail | dev/pipe.cpp:146-179 | from any point of the loop, a read that fails fails with ReadFail and nothing else |
| PipeProps.ReadFailsWithReadFail | dev/pipe.cpp:125-180 | read() as a whole, whether the scratch allocation, open(2) or read(2) failed, throws only ReadFail |
| PipeProps.ScratchUnterminated | dev/pipe.cpp:146-174 | a 3-character read of "a" refilled with "b" and "c" fills all 4 bytes with "aabb", and string::assign gets no NUL: undefined |
| PipeProps.EmptyRefillStep | dev/pipe.cpp:146-163 | a refill delivering nothing stores the last character again and the loop goes on |
| PipeProps.EmptyRefillsOverflow | dev/pipe.cpp:146-165 | enough refills delivering nothing store past the scratch buffer: undefined |
| PipeProps.ReadEmptyRefills | dev/pipe.cpp:125-165 | a read of 2 or more characters with one pending, followed by length + 1 empty refills, is undefined |
| PipeProps.DrainBounded | dev/pipe.cpp:146-176 | the text the loop assigns is at most length characters and NUL-free |
| PipeProps.ReadBounded | dev/pipe.cpp:125-180 | a completed read returns at most length characters, none of them NUL |
| PipeProps.PaddedAvoids | dev/pipe.cpp:174 | the NUL-padded copies read as a C string add no character |
| PipeProps.DrainAvoidsDelim | dev/pipe.cpp:164-165 | with a delimiter, the loop never keeps the delimiter |
| PipeProps.ReadAvoidsDelim | dev/pipe.cpp:125-180 | with a delimiter, the delimiter never appears in a completed read |
| PipeProps.FailedRefillKeepsDescriptor | dev/pipe.cpp:153-163 | a refill whose read(2) fails after a successful open leaves the descriptor set |
| PipeProps.StuckRead | dev/pipe.cpp:41-45 | with the descriptor left set and the buffer empty, every read fails at once, issuing no call |
| PipeProps.StuckReceive | dev/pipe.cpp:198-226 | in that state getMessage reports false without a system call |
| PipeProps.FailedWriteKeepsDescriptor | dev/pipe.cpp:184-190 | a failed write(2) leaves the descriptor set, and every later write fails with IsOpen and changes nothing |
| PipeProps.WriteCalls | dev/pipe.cpp:184-194 | a successful write issues exactly open, write, close |
| PipeProps.LengthFieldRoundTrip | dev/pipe.cpp:236-239 | the length line of a body under 2^31 characters is its 1 to 10 digit decimal length, and atol reads it back as that length |
| PipeProps.CommandLineRead | dev/pipe.cpp:209 | a frame's command line is read intact |
| PipeProps.LengthLineRead | dev/pipe.cpp:210-213 | a frame's length line is read back as the body length |
| PipeProps.BodyRead | dev/pipe.cpp:214 | the body is read without its last character, and the frame's newline stays pending |
| PipeProps.FrameReceived | dev/pipe.cpp:198-247 | getMessage of a sendMessage frame gives the same command and the body minus its last character, leaving "\n" pending |
| PipeProps.CommandAfterRefill | dev/pipe.cpp:146-165 | with the buffer empty, one refill that delivers a frame gives its command line, after one open and one close |
| PipeProps.FrameRefilled | dev/pipe.cpp:198-247 | getMessage on an empty buffer that one refill fills with a sendMessage frame gives the same command and the body minus its last character, with "\n" pending |
| PipeProps.LeftoverNewline | dev/pipe.cpp:209 | that leftover newline is read as an empty command line |
| Comp.Comp.constructor | dev/comp.cpp:19-24 | a new handle has no process and is not busy |
| Comp.NewComp | dev/comp.cpp:19-24 | without the log it throws CAPEXC_NOERRLOG; otherwise a stopped, idle handle |
| Comp.Comp.Start | dev/comp.cpp:41-64 | a running component is left alone; otherwise fork's answer is kept, -1 becoming 0; it runs afterwards iff it ran before or fork gave a child id |
| Comp.Comp.Stop | dev/comp.cpp:68-84 | sends Frame(MSG_QUIT, ""); only a send that passes clears the process id and busy flag; a pipe that is not write-only throws WrongMode |
| Comp.Comp.SetBusy | dev/comp.h:31 | sets the busy flag |
| Comp.Comp.IsBusy | dev/comp.h:32 | reports the busy flag |
| Comp.Comp.Destroy | dev/comp.cpp:28-31 | fails with CompUp exactly when the component is running |
| Comp.QuitFrame | dev/comp.cpp:68-76 | the quit frame is "MSG_QUIT\n0\n\n" |
| Comp.QuitReceived | dev/comp.cpp:71-73 | a component reading that frame receives MSG_QUIT with an empty body |
| SqlStmt.ContentInsert | dev/sql_stmt.cpp:307-374 | fewer than two lines crash; filename = line 1, title = line 2; false only when the id cannot be fetched; the id is the fetched one, else left as it was, also after an SQL exception from the insert or from the id query |
| SqlStmt.ContentInsertCalls | dev/sql_stmt.cpp:346-363 | the insert is executed, then the id query unless the insert threw |
| SqlStmt.Links | dev/sql_stmt.cpp:71-80 | one link per remaining line, in order, to the strtoul of that line |
| SqlStmt.ArchiveInsert | dev/sql_stmt.cpp:20-89 | an empty body crashes; no exception escapes |
| SqlStmt.ContentDelete | dev/sql_stmt.cpp:204-247 | fewer than two lines crash; otherwise marks deleted the content whose id is atol of line 2; MasterProps.ClientDelete with SqlStmt.IdLineRoundTrip shows that a request naming an id deletes that id |
| SqlStmt.ContentRename | dev/sql_stmt.cpp:251-303 | nothing unless exactly three lines; then retitles content atol(line 2) to line 3; MasterProps.ClientRename shows that a request naming an id and a title retitles that id |
| SqlStmt.JobInsert | dev/sql_stmt.cpp:378-442 | one job of type "dS" for the URL on line 3 iff the body is exactly "download", "single", URL; nothing otherwise |
| SqlStmt.JobSelect | dev/sql_stmt.cpp:446-484 | true iff the query and every fetch succeed; a pending row is copied out in full, no row leaves the outputs unchanged, and a failing fetch leaves the id and the fields before it copied |
| SqlStmt.ArchiveSelect | dev/sql_stmt.cpp:93-149 | true iff an archive and its content are both read; no archive or a failed first query leaves the outputs unchanged; a user_id fetch that throws leaves the id set and the user unchanged, with no content query; a failed content query leaves the id and user set; a record fetch that throws leaves the records read so far appended |
| SqlStmt.Finish | dev/sql_stmt.cpp:155 | id 0 raises InvalParam; any other id is updated; MasterProps.IdleReportTerminates shows the raise ending the loop, MasterProps.ReportFrees the update freeing the worker |
| SqlStmt.ArchiveFinish | dev/sql_stmt.cpp:153-200 | id 0 raises InvalParam; otherwise marks the archive finished; used by MasterProps.EmptyArchiveFinished and MasterProps.ReportFrees |
| SqlStmt.JobFailed | dev/sql_stmt.cpp:488-527 | id 0 raises InvalParam; otherwise marks the job failed; MasterProps.IdleReportTerminates and MasterProps.ReportFrees give its effect on the loop |
| SqlStmt.JobFinish | dev/sql_stmt.cpp:531-578 | id 0 raises InvalParam; otherwise marks the job finished; MasterProps.IdleReportTerminates, MasterProps.DownloadStored and MasterProps.ReportFrees give its effect on the loop |
| SqlStmt.ArchiveInsertLinks | dev/sql_stmt.cpp:20-89 | a title and n ids make one content row, one archive row and n links, in order |
| SqlStmt.ArchiveInsertNoId | dev/sql_stmt.cpp:32-36 | when the new id cannot be fetched no archive row is made |
| SqlStmt.ArchiveInsertUnderZero | dev/sql_stmt.cpp:20-89 | after an SQL exception on the content insert the archive row and every link use id 0 |
| SqlStmt.IdLineRoundTrip | dev/sql_stmt.cpp:229 | an id below 2^32 written in decimal is read back by atol as that id |
| Master.ParseBody | dev/master.cpp:39-49 | the body is the message cut at every newline |
| Master.Copies | dev/master.cpp:334-344 | one copy command per content record, in order |
| Master.JobPoll | dev/master.cpp:315-322 | only an idle downloader is polled; at most one send, to the downloader, last; archive state and error count unchanged |
| Master.ArchivePoll | dev/master.cpp:327-363 | only an idle archiver is polled; at most one send, to the archiver, last; it stops the loop iff an empty archive with id 0 is found, with InvalParam |
| Master.ClientRequest | dev/master.cpp:420-440 | changes no loop variable and only issues SQL: "download" inserts one "dS" job iff the request is download/single/URL; "delete" marks line 2's id deleted or reads past a one-line body; "rename" retitles only with exactly three lines; any other kind is dropped |
| Master.Downloaded | dev/master.cpp:441-482 | under two lines: undefined; no content id: only the insert and id query, downloader kept busy; otherwise no job outstanding throws InvalParam, and a job is finished after the file is moved under the fetched id (0 after an SQL exception) and the download directory cleared, freeing the downloader |
| Master.Dispatch | dev/master.cpp:383-494 | nothing is sent; MSG_QUIT exits with 0; an unknown command and MSG_NULL change nothing; MSG_ARCHIVEREQ issues SQL only; MSG_ARCHIVED is ignored when idle and otherwise moves the archive, clears the archive directory, finishes the archive and frees the archiver; MSG_CLIENTREQ and MSG_DOWNLOADED act on the parsed body; MSG_DOWNLOADFAIL fails the job and frees the downloader, or throws InvalParam with no job |
| Master.Handle | dev/master.cpp:366-381 | a lost message increments the count and exits with -1 at 20; an arrived message clears the count |
| Master.MessageLoop | dev/master.cpp:304-498 | the loop over a sequence of rounds ends in the status, variables and effects of Run |
| MasterProps.RunAppend | dev/master.cpp:312-498 | running two stretches of rounds in turn is running them together; a stopped loop ignores later rounds |
| MasterProps.LostRounds | dev/master.cpp:366-378 | fewer than 20 lost messages in a row keep the loop running and are all counted |
| MasterProps.ReadErrorEscalation | dev/master.cpp:366-378 | the 20th lost message in a row ends the loop with -1 |
| MasterProps.ErrorCountBounded | dev/master.cpp:366-381 | while the loop runs the error count stays between 0 and 19 |
| MasterProps.SendsOnlyToIdle | dev/master.cpp:315-363 | a round sends each worker at most one message, and none to a busy worker |
| MasterProps.BusyStep | dev/master.cpp:312-498 | a round without the worker's report keeps it busy with the same job and sends it nothing |
| MasterProps.StaysBusy | dev/master.cpp:312-498 | the same over any number of rounds |
| MasterProps.ReportFrees | dev/master.cpp:396-490 | the report of a busy worker frees it in the round it arrives: MSG_ARCHIVED the archiver, MSG_DOWNLOADFAIL the downloader, MSG_DOWNLOADED the downloader when its content id was fetched |
| MasterProps.JobPollOutcomes | dev/master.cpp:315-322 | a pending job's type and URL are sent and recorded; with no job an empty message is sent and the downloader stays idle; a failed query sends nothing; a fetch failing after the id marks the downloader busy without a send |
| MasterProps.JobFetchLost | dev/master.cpp:315-322 | after such a round the downloader is busy with the job and was sent nothing |
| MasterProps.StuckDownloader | dev/master.cpp:312-498 | after that the downloader is never sent anything until it reports, which it has no job to do |
| MasterProps.ArchiveBodyRoundTrip | dev/master.cpp:346-352 | an archive id up to 2^31 - 1 is sent as ten digits that atol reads back as the id |
| MasterProps.ArchiveSent | dev/master.cpp:327-353 | with content, each item is copied, then one MSG_ARCHIVE with the id is sent and the archiver is busy |
| MasterProps.EmptyArchiveFinished | dev/master.cpp:355-360 | an archive without content is finished at once, with nothing sent, and the archiver stays idle |
| MasterProps.ContentQueryFails | dev/master.cpp:327-331 | an archive select failing after the id is copied (the user_id fetch, the content query or a record fetch) sets the archive id but sends nothing |
| MasterProps.StuckArchiver | dev/master.cpp:327-363 | after that the archiver is never sent anything until an MSG_ARCHIVED arrives |
| MasterProps.DownloadStored | dev/master.cpp:441-482 | filename and title are stored, the file moved under the new id, the download directory cleared, the job finished and the downloader freed |
| MasterProps.DownloadNoId | dev/master.cpp:449-451 | when the new id cannot be fetched the report is dropped and the downloader stays busy |
| MasterProps.DownloadInsertFails | dev/master.cpp:441-482 | after an SQL exception on the content insert the file is moved under id 0, the job finished and the downloader freed |
| MasterProps.IdleReportTerminates | dev/master.cpp:441-490 | a download report with no job outstanding throws InvalParam out of the loop |
| MasterProps.ClientDownload | dev/master.cpp:420-430 | "download\nsingle\n" + URL becomes one job of type "dS" for that URL |
| MasterProps.ClientDelete | dev/master.cpp:431-433 | "delete\n" + a decimal id marks that content deleted |
| MasterProps.ClientDeleteShort | dev/master.cpp:431-433 | "delete" alone reads past the end of the body |
| MasterProps.ClientRename | dev/master.cpp:433-435 | "rename\n" + a decimal id + "\n" + title retitles that content |
| MasterProps.ClientUnknown | dev/master.cpp:436-439 | a client request of any other kind is dropped, with no effect |
| MasterProps.ArchiveRequest | dev/master.cpp:390-395 | an archive request makes a content row titled with line 1, fetches its id, then the archive row and one link per further line, in order; the loop variables are untouched |
| MasterProps.QuitExits | dev/master.cpp:383-386 | MSG_QUIT ends main with 0 in the round it arrives |
| Xml.SearchNode | dev/xml.cpp:32-80 | the recursive walk with its sibling loop equals Search |
| Xml.ParsePath | dev/xml.cpp:146-159 | the path is cut at every '.': one more piece than there are dots, none holding a dot, and joining them with '.' restores the path |
| Xml.GetValue | dev/xml.cpp:143-168 | the lookup is Search from the root element on the cut path |
| Xml.SearchSound | dev/xml.cpp:32-80 | a value found is the text of an element the path leads to |
| Xml.SearchComplete | dev/xml.cpp:32-80 | when sibling tags are unique, every value the path leads to is found |
| Xml.NoBacktracking | dev/xml.cpp:58-77 | a first matching child that leads nowhere is final, even when a later sibling with that tag holds the value |
| Xml.NoElementChildren | dev/xml.cpp:53-56 | a non-empty path below an element without child elements finds nothing |
| Xml.RootTagIgnored | dev/xml.cpp:161-167 | the root element's own tag plays no part in the lookup |

## Left out

- Setup and teardown in `main` (dev/master.cpp:79-301, 509-534) are not modelled. That covers the lock file, configuration load, log, signal handler, database connection and `sleep`.
- `sig_pipe` is not modelled: it is an asynchronous signal handler.
- dev/pipe_buffer.cpp is not part of this model. It is a superseded reader that does not compile.
- Logging is not modelled. `errlog` calls are treated as doing nothing, and dev/log.cpp is not part of this model.
- The Xerces parser set-up, tear-down and error handler of dev/xml.cpp are not modelled. The document is given as an already parsed `Node` tree.
  - A document without a root element is not modelled.
  - Text is modelled without transcoding.
  - Node kinds other than elements and text are not modelled.
- Xml.SearchNode: the element path is a value, so popping the caller's list in place is not modelled. `getValue` never reads that list again.
- `strDest` is modelled by `Lookup`: `Found(v)` sets it and `NotFound` leaves it unchanged. `NotText` stands for casting an element to a text node, which is undefined.
- System calls are not executed: `open`, `read`, `write`, `close`, `mkfifo`, `fork` and `execve` take their answers as parameters.
  - Blocking FIFO rendezvous is modelled only as `Blocked`: the reads ran out of the refill answers supplied.
  - The child side of `fork` (after `execve`) is not modelled.
- The database is not modelled. Each `dosql_*` function's answers are parameters and its statements are recorded.
  - Prepared-statement caching, the `throw -1` when the log or connection is missing, and a failed statement preparation are not modelled.
  - Timestamps from `time`/`strftime` are not modelled.
- SqlStmt.JobInsert: the job type buffer `type[2]` lacks its terminating NUL, so the code copies an unterminated string. The model uses the intended value "dS".
- SqlStmt.ContentInsert and the other `dosql_*` functions do not model the signed conversions of `setInt`. Ids are taken modulo 2^32 where the code stores them as `unsigned`.
- Master.ArchivePoll and Master.Dispatch record `system()` commands by kind and arguments, not by their formatted text.
  - The directory names are not modelled.
  - `sprintf` overflowing its fixed buffers is not modelled.
  - The `sprintf` failure branch of MSG_DOWNLOADED (dev/master.cpp:457-462) is taken as never happening.
- Master.JobPoll and Master.ArchivePoll record a message to a worker as a `Send` effect. The worker pipe's own write, and the ignored result of `sendMessage`, are not modelled there. Pipe.Pipe.SendMessage models that write.
- Pipe.Pipe.Read: the scratch buffer's allocation failure is a parameter. A length of 2^31 - 1 or more is treated as undefined, because `length + 1` overflows.
- Pipe.Pipe.GetMessage reads from a finite list of refill answers. Waiting for a writer beyond them is reported as `ReceiveBlocked`.
