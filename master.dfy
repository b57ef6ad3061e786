/** The master program's message loop: on every round it offers the idle
    downloader a pending job and the idle archiver an open archive, then
    waits for one message on its own pipe and acts on it. */
module Master {

  import opened Wrappers
  import opened Defs
  import opened Strings
  import opened Numerals
  import opened SqlStmt

  /** parseBody: the lines of a message body, cut at every newline. */
  method ParseBody(str: string) returns (body: seq<string>)
    ensures body == Split(str, '\n')
  {
    body := [];
    var start := 0;
    var end := Find(str, '\n', start);
    assert str[start..] == str;
    while end != -1
      invariant 0 <= start <= |str|
      invariant end == Find(str, '\n', start)
      invariant body + Split(str[start..], '\n') == Split(str, '\n')
      decreases |str| - start
    {
      SplitAtFound(str, '\n', start, end);
      assert body + [str[start..end]] + Split(str[end + 1..], '\n') == body + Split(str[start..], '\n');
      body := body + [str[start..end]];
      start := end + 1;
      end := Find(str, '\n', start);
    }
    SplitAtEnd(str, '\n', start);
    assert body + [str[start..]] == body + Split(str[start..], '\n');
    body := body + [str[start..]];
  }

  // ---------------------------------------------------------------------------
  // What one round does

  datatype Worker = Downloader | Archiver

  /** The shell commands the loop runs through system(); the directories come
      from the configuration and are left out. */
  datatype ShellCommand =
    | CopyContent(contentId: nat, title: string)
    | MoveArchive(archiveId: nat)
    | ClearArchiveDir
    | MoveDownload(filename: string, contentId: nat)
    | ClearDownloadDir

  /** What the loop does outside its own variables. */
  datatype Effect = Db(call: DbCall) | Send(to: Worker, msg: Message) | Shell(cmd: ShellCommand)

  /** Whether the loop goes on: main's `throw` of an exit status, a
      CAP_Exception that nothing catches, or undefined behaviour. */
  datatype Status = Running | Exited(code: int) | Terminated(err: CapError) | Undefined

  /** The loop's variables; an id of 0 means that worker is idle. */
  datatype Loop = Loop(downloadJob: nat, downloadUser: int, archiveJob: nat, archiveUser: int, errCount: int)

  const Idle: Loop := Loop(0, 0, 0, 0, 0)

  /** What the world answers in one round: the database's answers to the
      polls and to a content insert, what getMessage delivers (None for
      false), and the first archive statement that fails, if any. */
  datatype Round = Round(job: JobAnswer, archive: ArchiveAnswer, received: Option<Message>,
                         content: ContentAnswer, archiveFailAt: Option<nat>)

  datatype After = After(status: Status, loop: Loop, effects: seq<Effect>)

  function Queries(calls: seq<DbCall>): (e: seq<Effect>)
    ensures |e| == |calls| && forall i :: 0 <= i < |calls| ==> e[i] == Db(calls[i])
  {
    if |calls| == 0 then [] else [Db(calls[0])] + Queries(calls[1..])
  }

  function Copies(recs: seq<ContentRec>): (e: seq<Effect>)
    ensures |e| == |recs| && forall i :: 0 <= i < |recs| ==> e[i] == Shell(CopyContent(recs[i].id, recs[i].title))
  {
    if |recs| == 0 then [] else [Shell(CopyContent(recs[0].id, recs[0].title))] + Copies(recs[1..])
  }

  function Prepend(e: seq<Effect>, a: After): After {
    a.(effects := e + a.effects)
  }

  /** sprintf("%010d") of an archive id: the id read as an int, padded with
      zeros to ten characters, a minus sign included. */
  function ArchiveBody(id: nat): string {
    var v := Wrap32(id);
    if v >= 0 then ZeroPad10(v)
    else
      var d := Decimal(-v);
      "-" + (if |d| >= 9 then d else Zeros(9 - |d|) + d)
  }

  /** Lines 315-323: an idle downloader is offered the first pending job; its
      type goes out as the command and its URL as the body. */
  function JobPoll(s: Loop, ans: JobAnswer): (a: After)
    ensures a.status == Running
    ensures a.loop.archiveJob == s.archiveJob && a.loop.archiveUser == s.archiveUser && a.loop.errCount == s.errCount
    ensures s.downloadJob != 0 ==> a == After(Running, s, [])
    ensures forall i :: 0 <= i < |a.effects| && a.effects[i].Send? ==>
      i == |a.effects| - 1 && a.effects[i].to == Downloader && s.downloadJob == 0
  {
    if s.downloadJob != 0 then After(Running, s, [])
    else
      var r := JobSelect(JobFields(s.downloadJob, s.downloadUser, "", ""), ans);
      var (ok, f) := r.value;
      var sent := if ok then [Send(Downloader, Message(f.jobType, f.url))] else [];
      After(Running, s.(downloadJob := f.jobId, downloadUser := f.userId), Queries(r.calls) + sent)
  }

  /** Lines 327-363: an idle archiver is offered the first open archive. With
      content, the items are copied and one MSG_ARCHIVE goes out; an archive
      without content is marked finished at once. */
  function ArchivePoll(s: Loop, ans: ArchiveAnswer): (a: After)
    ensures a.loop.downloadJob == s.downloadJob && a.loop.downloadUser == s.downloadUser && a.loop.errCount == s.errCount
    ensures s.archiveJob != 0 ==> a == After(Running, s, [])
    ensures a.status != Running <==>
      s.archiveJob == 0 && ans.Archive? && ans.content == Some([]) && UInt32(ans.id) == 0
    ensures a.status != Running ==> a.status == Terminated(InvalParam)
    ensures forall i :: 0 <= i < |a.effects| && a.effects[i].Send? ==>
      i == |a.effects| - 1 && a.effects[i].to == Archiver && s.archiveJob == 0
  {
    if s.archiveJob != 0 then After(Running, s, [])
    else
      var r := ArchiveSelect(ArchiveFields(s.archiveJob, s.archiveUser, []), ans);
      var (ok, f) := r.value;
      var s1 := s.(archiveJob := f.archiveId, archiveUser := f.userId);
      var e1 := Queries(r.calls);
      if !ok then After(Running, s1, e1)
      else if |f.content| > 0 then
        After(Running, s1, e1 + Copies(f.content) + [Send(Archiver, Message("MSG_ARCHIVE", ArchiveBody(f.archiveId)))])
      else
        var fin := ArchiveFinish(f.archiveId);
        if fin.Raised? then After(Terminated(fin.err), s1, e1)
        else After(Running, s1.(archiveJob := 0, archiveUser := 0), e1 + Queries(fin.calls))
  }

  /** The effects of a dosql_* call whose result the loop ignores. */
  function FromDb(s: Loop, r: DbEnd<()>): (a: After)
    ensures a.loop == s
    ensures forall i :: 0 <= i < |a.effects| ==> a.effects[i].Db?
  {
    match r
    case Returned(_, calls) => After(Running, s, Queries(calls))
    case Raised(err) => After(Terminated(err), s, [])
    case Crashed => After(Undefined, s, [])
  }

  /** Lines 420-440: a client request, routed on its first line; a request
      of another kind is dropped. */
  function ClientRequest(s: Loop, body: seq<string>): (a: After)
    requires |body| >= 1
    ensures a.loop == s
    ensures forall i :: 0 <= i < |a.effects| ==> a.effects[i].Db?
    ensures body[0] == "download" ==>
      a.status == Running && |a.effects| <= 1
      && (|a.effects| == 1 <==> |body| == 3 && body[1] == "single")
      && (|a.effects| == 1 ==> a.effects[0] == Db(InsertJob(1, "dS", body[2])))
    ensures body[0] == "delete" && |body| < 2 ==> a.status == Undefined && a.effects == []
    ensures body[0] == "delete" && |body| >= 2 ==>
      a.status == Running && a.effects == [Db(MarkDeleted(UInt32(Atol(body[1]))))]
    ensures body[0] == "rename" ==>
      a.status == Running
      && a.effects == (if |body| == 3 then [Db(Retitle(UInt32(Atol(body[1])), body[2]))] else [])
    ensures body[0] != "download" && body[0] != "delete" && body[0] != "rename" ==> a == After(Running, s, [])
  {
    if body[0] == "download" then FromDb(s, JobInsert(1, body))
    else if body[0] == "delete" then FromDb(s, ContentDelete(body))
    else if body[0] == "rename" then FromDb(s, ContentRename(body))
    else After(Running, s, [])
  }

  /** Lines 441-482: the downloader's report of a finished job. Only a
      content id that cannot be fetched keeps the downloader busy; otherwise
      the file is moved under the id (0 after an SQL exception) and the job
      is finished, which throws when no job is outstanding. */
  function Downloaded(s: Loop, body: seq<string>, ans: ContentAnswer): (a: After)
    ensures a.loop == s || a.loop == s.(downloadJob := 0, downloadUser := 0)
    ensures forall i :: 0 <= i < |a.effects| ==> !a.effects[i].Send?
    ensures |body| < 2 ==> a == After(Undefined, s, [])
    ensures |body| >= 2 && ans.NoId? ==>
      a == After(Running, s, [Db(InsertContent(s.downloadUser, 1, body[1])), Db(LastInsertId)])
    ensures |body| >= 2 && !ans.NoId? && s.downloadJob == 0 ==> a.status == Terminated(InvalParam) && a.loop == s
    ensures |body| >= 2 && !ans.NoId? && s.downloadJob != 0 ==>
      a.status == Running && a.loop == s.(downloadJob := 0, downloadUser := 0)
      && |a.effects| >= 4 && a.effects[0] == Db(InsertContent(s.downloadUser, 1, body[1]))
      && a.effects[|a.effects| - 3..] ==
         [Shell(MoveDownload(body[0], if ans.Inserted? then UInt32(ans.id) else 0)), Shell(ClearDownloadDir),
          Db(FinishJob(s.downloadJob))]
  {
    var r := ContentInsert(body, s.downloadUser, 0, ans);
    if r.Crashed? then After(Undefined, s, [])
    else
      var (ok, filename, contentId) := r.value;
      var e := Queries(r.calls);
      if !ok then After(Running, s, e)
      else
        var e2 := e + [Shell(MoveDownload(filename, contentId)), Shell(ClearDownloadDir)];
        var fin := JobFinish(s.downloadJob);
        if fin.Raised? then After(Terminated(fin.err), s, e2)
        else After(Running, s.(downloadJob := 0, downloadUser := 0), e2 + Queries(fin.calls))
  }

  /** Lines 383-494: acting on a message that arrived. */
  function Dispatch(s: Loop, msg: Message, r: Round): (a: After)
    ensures a.loop.errCount == s.errCount
    ensures forall i :: 0 <= i < |a.effects| ==> !a.effects[i].Send?
    ensures msg.command == "MSG_QUIT" ==> a == After(Exited(0), s, [])
    ensures msg.command !in Commands ==> a == After(Running, s, [])
    ensures msg.command != "MSG_ARCHIVED" ==>
      a.loop.archiveJob == s.archiveJob && a.loop.archiveUser == s.archiveUser
    ensures msg.command != "MSG_DOWNLOADED" && msg.command != "MSG_DOWNLOADFAIL" ==>
      a.loop.downloadJob == s.downloadJob && a.loop.downloadUser == s.downloadUser
    ensures msg.command == "MSG_ARCHIVEREQ" ==>
      a.status == Running && a.loop == s && forall i :: 0 <= i < |a.effects| ==> a.effects[i].Db?
    ensures msg.command == "MSG_ARCHIVED" && s.archiveJob == 0 ==> a == After(Running, s, [])
    ensures msg.command == "MSG_ARCHIVED" && s.archiveJob != 0 ==>
      a == After(Running, s.(archiveJob := 0, archiveUser := 0),
                 [Shell(MoveArchive(s.archiveJob)), Shell(ClearArchiveDir), Db(FinishArchive(s.archiveJob))])
    ensures msg.command == "MSG_CLIENTREQ" ==> a == ClientRequest(s, Split(msg.body, '\n'))
    ensures msg.command == "MSG_DOWNLOADED" ==> a == Downloaded(s, Split(msg.body, '\n'), r.content)
    ensures msg.command == "MSG_DOWNLOADFAIL" && s.downloadJob == 0 ==> a == After(Terminated(InvalParam), s, [])
    ensures msg.command == "MSG_DOWNLOADFAIL" && s.downloadJob != 0 ==>
      a == After(Running, s.(downloadJob := 0, downloadUser := 0), [Db(FailJob(s.downloadJob))])
  {
    if msg.command == "MSG_QUIT" then After(Exited(0), s, [])
    else if msg.command == "MSG_NULL" then After(Running, s, [])
    else if msg.command == "MSG_ARCHIVEREQ" then
      FromDb(s, ArchiveInsert(1, Split(msg.body, '\n'), r.content, r.archiveFailAt))
    else if msg.command == "MSG_ARCHIVED" then
      if s.archiveJob == 0 then After(Running, s, [])
      else
        var fin := ArchiveFinish(s.archiveJob);
        After(Running, s.(archiveJob := 0, archiveUser := 0),
              [Shell(MoveArchive(s.archiveJob)), Shell(ClearArchiveDir)] + Queries(fin.calls))
    else if msg.command == "MSG_CLIENTREQ" then ClientRequest(s, Split(msg.body, '\n'))
    else if msg.command == "MSG_DOWNLOADED" then Downloaded(s, Split(msg.body, '\n'), r.content)
    else if msg.command == "MSG_DOWNLOADFAIL" then
      var fin := JobFailed(s.downloadJob);
      if fin.Raised? then After(Terminated(fin.err), s, [])
      else After(Running, s.(downloadJob := 0, downloadUser := 0), Queries(fin.calls))
    else After(Running, s, [])
  }

  /** The commands the loop acts on; MSG_NULL among them does nothing. */
  const Commands: set<string> :=
    {"MSG_QUIT", "MSG_NULL", "MSG_ARCHIVEREQ", "MSG_ARCHIVED", "MSG_CLIENTREQ", "MSG_DOWNLOADED", "MSG_DOWNLOADFAIL"}

  /** Lines 366-381: a lost message counts towards PIPE_READ_ERROR_MAX; a
      message that arrives clears the count and is acted on. */
  function Handle(s: Loop, r: Round): (a: After)
    ensures r.received.None? ==>
      a == After(if s.errCount + 1 == PIPE_READ_ERROR_MAX then Exited(-1) else Running,
                 s.(errCount := s.errCount + 1), [])
    ensures r.received.Some? ==> a.loop.errCount == 0
    ensures forall i :: 0 <= i < |a.effects| ==> !a.effects[i].Send?
  {
    match r.received
    case None =>
      var n := s.errCount + 1;
      After(if n == PIPE_READ_ERROR_MAX then Exited(-1) else Running, s.(errCount := n), [])
    case Some(msg) => Dispatch(s.(errCount := 0), msg, r)
  }

  /** One pass through the loop. */
  function Step(s: Loop, r: Round): After {
    var a1 := JobPoll(s, r.job);
    var a2 := ArchivePoll(a1.loop, r.archive);
    if a2.status != Running then Prepend(a1.effects, a2)
    else Prepend(a1.effects + a2.effects, Handle(a2.loop, r))
  }

  /** The loop run over `rounds`, or until it stops. */
  function Run(s: Loop, rounds: seq<Round>): After
    decreases |rounds|
  {
    if |rounds| == 0 then After(Running, s, [])
    else
      var a := Step(s, rounds[0]);
      if a.status != Running then a else Prepend(a.effects, Run(a.loop, rounds[1..]))
  }

  // ---------------------------------------------------------------------------
  // The loop itself

  /** Lines 315-323, on the loop's variables. */
  method PollDownloader(s: Loop, ans: JobAnswer) returns (s': Loop, e: seq<Effect>)
    ensures JobPoll(s, ans) == After(Running, s', e)
  {
    s', e := s, [];
    if s.downloadJob == 0 {
      var sel := JobSelect(JobFields(s.downloadJob, s.downloadUser, "", ""), ans);
      var (ok, f) := sel.value;
      s' := s.(downloadJob := f.jobId, downloadUser := f.userId);
      e := Queries(sel.calls);
      if ok {
        e := e + [Send(Downloader, Message(f.jobType, f.url))];
      }
    }
  }

  /** Lines 327-363, on the loop's variables. */
  method PollArchiver(s: Loop, ans: ArchiveAnswer) returns (status: Status, s': Loop, e: seq<Effect>)
    ensures ArchivePoll(s, ans) == After(status, s', e)
  {
    status, s', e := Running, s, [];
    if s.archiveJob == 0 {
      var sel := ArchiveSelect(ArchiveFields(s.archiveJob, s.archiveUser, []), ans);
      var (ok, f) := sel.value;
      s' := s.(archiveJob := f.archiveId, archiveUser := f.userId);
      e := Queries(sel.calls);
      if ok {
        if |f.content| > 0 {
          e := e + Copies(f.content) + [Send(Archiver, Message("MSG_ARCHIVE", ArchiveBody(s'.archiveJob)))];
        } else {
          var fin := ArchiveFinish(s'.archiveJob);
          if fin.Raised? {
            status := Terminated(fin.err);
          } else {
            e := e + Queries(fin.calls);
            s' := s'.(archiveJob := 0, archiveUser := 0);
          }
        }
      }
    }
  }

  /** Lines 441-482, on the loop's variables. */
  method ProcessDownloaded(s: Loop, msg: Message, ans: ContentAnswer) returns (status: Status, s': Loop, e: seq<Effect>)
    ensures Downloaded(s, Split(msg.body, '\n'), ans) == After(status, s', e)
  {
    status, s', e := Running, s, [];
    var body := ParseBody(msg.body);
    var res := ContentInsert(body, s.downloadUser, 0, ans);
    if res.Crashed? {
      return Undefined, s, [];
    }
    var (ok, filename, contentId) := res.value;
    e := Queries(res.calls);
    if !ok {
      return;
    }
    e := e + [Shell(MoveDownload(filename, contentId)), Shell(ClearDownloadDir)];
    var fin := JobFinish(s.downloadJob);
    if fin.Raised? {
      status := Terminated(fin.err);
    } else {
      e := e + Queries(fin.calls);
      s' := s.(downloadJob := 0, downloadUser := 0);
    }
  }

  /** Lines 383-494, on the loop's variables. */
  method ProcessMessage(s: Loop, msg: Message, r: Round) returns (status: Status, s': Loop, e: seq<Effect>)
    ensures Dispatch(s, msg, r) == After(status, s', e)
  {
    status, s', e := Running, s, [];
    var cmd := msg.command;
    if cmd == "MSG_QUIT" {
      status := Exited(0);
    } else if cmd == "MSG_NULL" {
    } else if cmd == "MSG_ARCHIVEREQ" {
      var body := ParseBody(msg.body);
      var res := ArchiveInsert(1, body, r.content, r.archiveFailAt);
      if res.Crashed? {
        status := Undefined;
      } else {
        e := Queries(res.calls);
      }
    } else if cmd == "MSG_ARCHIVED" {
      if s.archiveJob != 0 {
        e := [Shell(MoveArchive(s.archiveJob)), Shell(ClearArchiveDir)] + Queries(ArchiveFinish(s.archiveJob).calls);
        s' := s.(archiveJob := 0, archiveUser := 0);
      }
    } else if cmd == "MSG_CLIENTREQ" {
      var body := ParseBody(msg.body);
      var res := if body[0] == "download" then JobInsert(1, body)
                 else if body[0] == "delete" then ContentDelete(body)
                 else if body[0] == "rename" then ContentRename(body)
                 else Returned((), []);
      if res.Crashed? {
        status := Undefined;
      } else {
        e := Queries(res.calls);
      }
    } else if cmd == "MSG_DOWNLOADED" {
      status, s', e := ProcessDownloaded(s, msg, r.content);
    } else if cmd == "MSG_DOWNLOADFAIL" {
      var fin := JobFailed(s.downloadJob);
      if fin.Raised? {
        status := Terminated(fin.err);
      } else {
        e := Queries(fin.calls);
        s' := s.(downloadJob := 0, downloadUser := 0);
      }
    }
  }

  /** One pass through the loop. */
  method LoopRound(s: Loop, r: Round) returns (a: After)
    ensures a == Step(s, r)
  {
    var s1, e1 := PollDownloader(s, r.job);
    var status, s2, e2 := PollArchiver(s1, r.archive);
    if status != Running {
      return After(status, s2, e1 + e2);
    }
    var e := e1 + e2;
    match r.received
    case None =>
      var errCountRd := s2.errCount + 1;
      status := if errCountRd == PIPE_READ_ERROR_MAX then Exited(-1) else Running;
      a := After(status, s2.(errCount := errCountRd), e);
    case Some(msg) =>
      var s3, e3;
      status, s3, e3 := ProcessMessage(s2.(errCount := 0), msg, r);
      a := After(status, s3, e + e3);
  }

  lemma PrependTwice(e1: seq<Effect>, e2: seq<Effect>, x: After)
    ensures Prepend(e1, Prepend(e2, x)) == Prepend(e1 + e2, x)
  {
    assert e1 + (e2 + x.effects) == (e1 + e2) + x.effects;
  }

  /** Run takes one step at a time. */
  lemma RunFrom(s: Loop, rounds: seq<Round>, i: nat)
    requires i < |rounds|
    ensures var a := Step(s, rounds[i]);
      Run(s, rounds[i..]) == if a.status != Running then a else Prepend(a.effects, Run(a.loop, rounds[i + 1..]))
  {
    assert rounds[i..][0] == rounds[i] && rounds[i..][1..] == rounds[i + 1..];
  }

  /** The message loop over `rounds`, one round per pass; it ends when the
      rounds run out or when main would leave the loop. */
  method MessageLoop(rounds: seq<Round>) returns (status: Status, last: Loop, effects: seq<Effect>)
    ensures Run(Idle, rounds) == After(status, last, effects)
  {
    var vars := Idle;
    status, effects := Running, [];
    var i := 0;
    while i < |rounds| && status == Running
      invariant 0 <= i <= |rounds|
      invariant status == Running ==> Run(Idle, rounds) == Prepend(effects, Run(vars, rounds[i..]))
      invariant status != Running ==> Run(Idle, rounds) == After(status, vars, effects)
      decreases |rounds| - i
    {
      var a := LoopRound(vars, rounds[i]);
      RunFrom(vars, rounds, i);
      if a.status == Running {
        PrependTwice(effects, a.effects, Run(a.loop, rounds[i + 1..]));
      }
      status, vars, effects := a.status, a.loop, effects + a.effects;
      i := i + 1;
    }
    assert status == Running ==> rounds[i..] == [];
    last := vars;
  }
}
