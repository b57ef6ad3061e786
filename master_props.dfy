/** What the message loop guarantees over many rounds: how it stops, how it
    counts lost messages, and that a busy worker is left alone until it
    reports back. */
module MasterProps {

  import opened Wrappers
  import opened Defs
  import opened Strings
  import opened Numerals
  import opened SqlStmt
  import opened Master

  // ---------------------------------------------------------------------------
  // Running the loop in stretches

  /** Running two stretches of rounds one after the other is running them
      together; once the loop has stopped, later rounds change nothing. */
  lemma {:induction false} RunAppend(s: Loop, xs: seq<Round>, ys: seq<Round>)
    ensures var a := Run(s, xs);
      Run(s, xs + ys) == if a.status != Running then a else Prepend(a.effects, Run(a.loop, ys))
    decreases |xs|
  {
    if |xs| == 0 {
      assert xs + ys == ys;
      assert [] + Run(s, ys).effects == Run(s, ys).effects;
    } else {
      var a := Step(s, xs[0]);
      assert (xs + ys)[0] == xs[0] && (xs + ys)[1..] == xs[1..] + ys;
      if a.status == Running {
        RunAppend(a.loop, xs[1..], ys);
        var b := Run(a.loop, xs[1..]);
        if b.status == Running {
          PrependTwice(a.effects, b.effects, Run(b.loop, ys));
        }
      }
    }
  }

  // ---------------------------------------------------------------------------
  // Lost messages

  /** A round in which getMessage delivers nothing and the archive poll does
      not stop the loop. */
  predicate Lost(r: Round) {
    r.received.None? && !(r.archive.Archive? && r.archive.content == Some([]) && UInt32(r.archive.id) == 0)
  }

  /** Messages lost in a row are counted, and the loop goes on while the
      count stays below PIPE_READ_ERROR_MAX. */
  lemma {:induction false} LostRounds(s: Loop, rounds: seq<Round>)
    requires 0 <= s.errCount && s.errCount + |rounds| < PIPE_READ_ERROR_MAX
    requires forall i :: 0 <= i < |rounds| ==> Lost(rounds[i])
    ensures Run(s, rounds).status == Running
    ensures Run(s, rounds).loop.errCount == s.errCount + |rounds|
    decreases |rounds|
  {
    if |rounds| > 0 {
      var a := Step(s, rounds[0]);
      assert a.status == Running && a.loop.errCount == s.errCount + 1;
      assert forall i :: 0 <= i < |rounds[1..]| ==> Lost(rounds[1..][i]);
      LostRounds(a.loop, rounds[1..]);
    }
  }

  /** The PIPE_READ_ERROR_MAX-th message lost in a row ends main with -1. */
  lemma ReadErrorEscalation(s: Loop, rounds: seq<Round>)
    requires 0 <= s.errCount < PIPE_READ_ERROR_MAX && |rounds| == PIPE_READ_ERROR_MAX - s.errCount
    requires forall i :: 0 <= i < |rounds| ==> Lost(rounds[i])
    ensures Run(s, rounds).status == Exited(-1)
  {
    var n := |rounds| - 1;
    LostRounds(s, rounds[..n]);
    RunAppend(s, rounds[..n], rounds[n..]);
    assert rounds[..n] + rounds[n..] == rounds;
    var b := Run(s, rounds[..n]);
    var a := Step(b.loop, rounds[n]);
    assert a.status == Exited(-1);
    assert rounds[n..][0] == rounds[n];
  }

  /** While the loop runs its error count stays in 0 .. PIPE_READ_ERROR_MAX - 1:
      a message that arrives clears it. */
  lemma {:induction false} ErrorCountBounded(s: Loop, rounds: seq<Round>)
    requires 0 <= s.errCount < PIPE_READ_ERROR_MAX
    ensures Run(s, rounds).status == Running ==> 0 <= Run(s, rounds).loop.errCount < PIPE_READ_ERROR_MAX
    decreases |rounds|
  {
    if |rounds| > 0 {
      var r := rounds[0];
      var a := Step(s, r);
      if a.status == Running {
        var a1 := JobPoll(s, r.job);
        var a2 := ArchivePoll(a1.loop, r.archive);
        assert a.loop == Handle(a2.loop, r).loop;
        assert a2.loop.errCount == s.errCount;
        assert 0 <= a.loop.errCount < PIPE_READ_ERROR_MAX;
        ErrorCountBounded(a.loop, rounds[1..]);
      }
    }
  }

  // ---------------------------------------------------------------------------
  // Busy workers

  /** The id of the job or archive a worker is busy with, 0 when idle. */
  function JobOf(w: Worker, s: Loop): nat {
    if w == Downloader then s.downloadJob else s.archiveJob
  }

  /** Whether a round brings the report that frees worker `w`. */
  predicate Reports(w: Worker, r: Round) {
    r.received.Some? &&
    if w == Downloader then r.received.value.command in {"MSG_DOWNLOADED", "MSG_DOWNLOADFAIL"}
    else r.received.value.command == "MSG_ARCHIVED"
  }

  predicate NoSendTo(w: Worker, e: seq<Effect>) {
    forall i :: 0 <= i < |e| ==> !(e[i].Send? && e[i].to == w)
  }

  /** A round sends each worker at most one message, and only to a worker
      that is idle when the round starts. */
  lemma SendsOnlyToIdle(s: Loop, r: Round, w: Worker)
    ensures var e := Step(s, r).effects;
      (JobOf(w, s) != 0 ==> NoSendTo(w, e))
      && forall i, j :: 0 <= i < j < |e| && e[i].Send? && e[j].Send? ==> e[i].to != e[j].to
  {
    var a1 := JobPoll(s, r.job);
    var a2 := ArchivePoll(a1.loop, r.archive);
    var h := if a2.status != Running then [] else Handle(a2.loop, r).effects;
    var e := Step(s, r).effects;
    assert e == a1.effects + a2.effects + h;
    var n1, n2 := |a1.effects|, |a2.effects|;
    forall i | 0 <= i < |e|
      ensures e[i].Send? ==>
        (i == n1 - 1 && e[i].to == Downloader && s.downloadJob == 0)
        || (i == n1 + n2 - 1 && e[i].to == Archiver && s.archiveJob == 0)
    {
      if i < n1 {
        assert e[i] == a1.effects[i];
      } else if i < n1 + n2 {
        assert e[i] == a2.effects[i - n1];
      } else {
        assert e[i] == h[i - n1 - n2];
      }
    }
  }

  /** A round that does not bring worker `w`'s report leaves a busy `w` busy
      with the same job, and sends it nothing. */
  lemma BusyStep(w: Worker, s: Loop, r: Round)
    requires JobOf(w, s) != 0 && !Reports(w, r)
    ensures JobOf(w, Step(s, r).loop) == JobOf(w, s)
    ensures NoSendTo(w, Step(s, r).effects)
  {
    SendsOnlyToIdle(s, r, w);
    var a1 := JobPoll(s, r.job);
    var a2 := ArchivePoll(a1.loop, r.archive);
    assert JobOf(w, a2.loop) == JobOf(w, s);
  }

  /** Over any number of rounds none of which brings its report, a busy
      worker stays busy with the same job and is sent nothing. */
  lemma {:induction false} StaysBusy(w: Worker, s: Loop, rounds: seq<Round>)
    requires JobOf(w, s) != 0
    requires forall i :: 0 <= i < |rounds| ==> !Reports(w, rounds[i])
    ensures JobOf(w, Run(s, rounds).loop) == JobOf(w, s)
    ensures NoSendTo(w, Run(s, rounds).effects)
    decreases |rounds|
  {
    if |rounds| > 0 {
      var a := Step(s, rounds[0]);
      BusyStep(w, s, rounds[0]);
      if a.status == Running {
        assert forall i :: 0 <= i < |rounds[1..]| ==> !Reports(w, rounds[1..][i]);
        StaysBusy(w, a.loop, rounds[1..]);
        var b := Run(a.loop, rounds[1..]);
        assert Run(s, rounds).effects == a.effects + b.effects;
        forall i | 0 <= i < |a.effects + b.effects|
          ensures !((a.effects + b.effects)[i].Send? && (a.effects + b.effects)[i].to == w)
        {
          if i >= |a.effects| {
            assert (a.effects + b.effects)[i] == b.effects[i - |a.effects|];
          }
        }
      }
    }
  }

  /** The report a busy worker sends frees it in the round it arrives:
      MSG_ARCHIVED the archiver, MSG_DOWNLOADFAIL the downloader, and
      MSG_DOWNLOADED the downloader once its content id could be fetched. */
  lemma ReportFrees(w: Worker, s: Loop, r: Round)
    requires JobOf(w, s) != 0 && Reports(w, r)
    requires w == Downloader && r.received.value.command == "MSG_DOWNLOADED" ==>
      |Split(r.received.value.body, '\n')| >= 2 && !r.content.NoId?
    ensures var a2 := ArchivePoll(JobPoll(s, r.job).loop, r.archive);
      a2.status == Running ==> Step(s, r).status == Running && JobOf(w, Step(s, r).loop) == 0
  {
    var a1 := JobPoll(s, r.job);
    var a2 := ArchivePoll(a1.loop, r.archive);
    assert JobOf(w, a2.loop) == JobOf(w, s);
  }

  // ---------------------------------------------------------------------------
  // The polls

  /** An idle downloader is sent the pending job's type and URL; when there is
      no pending job it is sent an empty message and stays idle, so the next
      round polls again; a failed query sends nothing, and when it fails after
      the job's id was copied the downloader is marked busy with that job. */
  lemma JobPollOutcomes(s: Loop, ans: JobAnswer)
    requires s.downloadJob == 0
    ensures ans.Job? ==>
      JobPoll(s, ans) == After(Running, s.(downloadJob := UInt32(ans.row.id), downloadUser := ans.row.userId),
                               [Db(SelectPendingJob), Send(Downloader, Message(ans.row.jobType, ans.row.url))])
    ensures ans.NoJob? ==> JobPoll(s, ans) == After(Running, s, [Db(SelectPendingJob), Send(Downloader, Message("", ""))])
    ensures ans.JobQueryFails? ==> JobPoll(s, ans) == After(Running, s, [Db(SelectPendingJob)])
    ensures ans.JobFetchFails? ==>
      JobPoll(s, ans) == After(Running, s.(downloadJob := UInt32(ans.row.id),
                                           downloadUser := if ans.at == UserIdFetch then s.downloadUser else ans.row.userId),
                               [Db(SelectPendingJob)])
  {
    assert Queries([SelectPendingJob]) == [Db(SelectPendingJob)];
  }

  /** A pending job whose fields cannot all be fetched: the downloader is
      marked busy with the job although the job was never sent. */
  lemma JobFetchLost(s: Loop, r: Round)
    requires s.downloadJob == 0 && r.job.JobFetchFails? && UInt32(r.job.row.id) != 0
    requires !Reports(Downloader, r)
    ensures Step(s, r).loop.downloadJob == UInt32(r.job.row.id)
    ensures NoSendTo(Downloader, Step(s, r).effects)
  {
    JobPollOutcomes(s, r.job);
    var a1 := JobPoll(s, r.job);
    var a2 := ArchivePoll(a1.loop, r.archive);
    var h := if a2.status != Running then [] else Handle(a2.loop, r).effects;
    var e := Step(s, r).effects;
    assert e == a1.effects + a2.effects + h;
    forall i | 0 <= i < |e|
      ensures !(e[i].Send? && e[i].to == Downloader)
    {
      if i < |a1.effects| {
        assert e[i] == a1.effects[i];
      } else if i < |a1.effects| + |a2.effects| {
        assert e[i] == a2.effects[i - |a1.effects|];
      } else {
        assert e[i] == h[i - |a1.effects| - |a2.effects|];
      }
    }
  }

  /** After such a round the downloader is never sent anything until it
      reports on the job, which it never received. */
  lemma StuckDownloader(s: Loop, r: Round, rounds: seq<Round>)
    requires s.downloadJob == 0 && r.job.JobFetchFails? && UInt32(r.job.row.id) != 0
    requires !Reports(Downloader, r)
    requires forall i :: 0 <= i < |rounds| ==> !Reports(Downloader, rounds[i])
    ensures NoSendTo(Downloader, Run(s, [r] + rounds).effects)
  {
    var xs := [r] + rounds;
    assert xs[0] == r && xs[1..] == rounds;
    JobFetchLost(s, r);
    var a := Step(s, r);
    if a.status == Running {
      StaysBusy(Downloader, a.loop, rounds);
      var b := Run(a.loop, rounds);
      assert Run(s, xs).effects == a.effects + b.effects;
      forall i | 0 <= i < |a.effects + b.effects|
        ensures !((a.effects + b.effects)[i].Send? && (a.effects + b.effects)[i].to == Downloader)
      {
        if i >= |a.effects| {
          assert (a.effects + b.effects)[i] == b.effects[i - |a.effects|];
        } else {
          assert (a.effects + b.effects)[i] == a.effects[i];
        }
      }
    }
  }

  /** The archive number sent with MSG_ARCHIVE is ten digits that read back
      as the archive id. */
  lemma ArchiveBodyRoundTrip(id: nat)
    requires id <= INT_MAX
    ensures |ArchiveBody(id)| == 10
    ensures forall k :: 0 <= k < 10 ==> IsDigit(ArchiveBody(id)[k])
    ensures Atol(ArchiveBody(id)) == id
  {
    assert id % TWO_TO_32 == id;
    assert Wrap32(id) == id;
    ZeroPad10Shape(id);
    AtolZeroPad10(id);
  }

  /** An idle archiver with content to archive: every item is copied, then
      one MSG_ARCHIVE carrying the archive's number is sent, and the archiver
      is busy with that archive. */
  lemma ArchiveSent(s: Loop, id: int, user: int, recs: seq<ContentRec>)
    requires s.archiveJob == 0 && |recs| > 0 && UInt32(id) <= INT_MAX
    ensures var a := ArchivePoll(s, Archive(id, user, Some(recs)));
      a.status == Running
      && a.loop == s.(archiveJob := UInt32(id), archiveUser := user)
      && a.effects == [Db(SelectOpenArchive), Db(SelectArchiveContent(UInt32(id)))] + Copies(recs)
                      + [Send(Archiver, Message("MSG_ARCHIVE", ArchiveBody(UInt32(id))))]
      && Atol(ArchiveBody(UInt32(id))) == UInt32(id)
  {
    var calls := [SelectOpenArchive, SelectArchiveContent(UInt32(id))];
    var sel := ArchiveSelect(ArchiveFields(s.archiveJob, s.archiveUser, []), Archive(id, user, Some(recs)));
    assert [] + recs == recs;
    assert sel == Returned((true, ArchiveFields(UInt32(id), user, recs)), calls);
    assert Queries(calls) == [Db(SelectOpenArchive), Db(SelectArchiveContent(UInt32(id)))] by {
      assert Queries(calls[1..]) == [Db(calls[1])];
    }
    ArchiveBodyRoundTrip(UInt32(id));
  }

  /** An open archive without content is marked finished at once and the
      archiver stays idle. */
  lemma EmptyArchiveFinished(s: Loop, id: int, user: int)
    requires s.archiveJob == 0 && UInt32(id) != 0
    ensures ArchivePoll(s, Archive(id, user, Some([]))) ==
      After(Running, s.(archiveUser := 0),
            [Db(SelectOpenArchive), Db(SelectArchiveContent(UInt32(id))), Db(FinishArchive(UInt32(id)))])
  {
    var calls := [SelectOpenArchive, SelectArchiveContent(UInt32(id))];
    assert Queries(calls) == [Db(SelectOpenArchive), Db(SelectArchiveContent(UInt32(id)))] by {
      assert Queries(calls[1..]) == [Db(calls[1])];
    }
  }

  /** An archive select that fails after the archive's id was copied: the
      content query, the user_id fetch or a content record fetch throws. */
  predicate SelectLost(ans: ArchiveAnswer) {
    (ans.Archive? && ans.content.None?) || ans.UserIdFails? || ans.ContentFails?
  }

  /** When the select fails after copying the id, the archive id is set
      although nothing is sent to the archiver. */
  lemma ContentQueryFails(s: Loop, r: Round)
    requires s.archiveJob == 0 && SelectLost(r.archive) && UInt32(r.archive.id) != 0
    requires !Reports(Archiver, r)
    ensures Step(s, r).loop.archiveJob == UInt32(r.archive.id)
    ensures NoSendTo(Archiver, Step(s, r).effects)
  {
    var a1 := JobPoll(s, r.job);
    var a2 := ArchivePoll(a1.loop, r.archive);
    var sel := ArchiveSelect(ArchiveFields(0, a1.loop.archiveUser, []), r.archive);
    assert !sel.value.0 && sel.value.1.archiveId == UInt32(r.archive.id);
    assert a2.status == Running && a2.loop.archiveJob == UInt32(r.archive.id) && a2.effects == Queries(sel.calls);
    var h := Handle(a2.loop, r);
    var e := Step(s, r).effects;
    assert e == a1.effects + a2.effects + h.effects;
    forall i | 0 <= i < |e|
      ensures !(e[i].Send? && e[i].to == Archiver)
    {
      if i < |a1.effects| {
        assert e[i] == a1.effects[i];
      } else if i < |a1.effects| + |a2.effects| {
        assert e[i] == a2.effects[i - |a1.effects|];
      } else {
        assert e[i] == h.effects[i - |a1.effects| - |a2.effects|];
      }
    }
  }

  /** After such a round the archiver is never sent anything until an
      MSG_ARCHIVED arrives, which the archiver has no reason to send. */
  lemma StuckArchiver(s: Loop, r: Round, rounds: seq<Round>)
    requires s.archiveJob == 0 && SelectLost(r.archive) && UInt32(r.archive.id) != 0
    requires !Reports(Archiver, r)
    requires forall i :: 0 <= i < |rounds| ==> !Reports(Archiver, rounds[i])
    ensures NoSendTo(Archiver, Run(s, [r] + rounds).effects)
  {
    var xs := [r] + rounds;
    assert xs[0] == r && xs[1..] == rounds;
    ContentQueryFails(s, r);
    var a := Step(s, r);
    if a.status == Running {
      StaysBusy(Archiver, a.loop, rounds);
      var b := Run(a.loop, rounds);
      assert Run(s, xs).effects == a.effects + b.effects;
      forall i | 0 <= i < |a.effects + b.effects|
        ensures !((a.effects + b.effects)[i].Send? && (a.effects + b.effects)[i].to == Archiver)
      {
        if i >= |a.effects| {
          assert (a.effects + b.effects)[i] == b.effects[i - |a.effects|];
        } else {
          assert (a.effects + b.effects)[i] == a.effects[i];
        }
      }
    }
  }

  // ---------------------------------------------------------------------------
  // Messages

  lemma SplitTwo(a: string, b: string)
    requires '\n' !in a && '\n' !in b
    ensures Split(a + "\n" + b, '\n') == [a, b]
  {
    SplitCons(a, b, '\n');
    assert FirstIndex(b, '\n') == -1;
  }

  lemma SplitThree(a: string, b: string, c: string)
    requires '\n' !in a && '\n' !in b && '\n' !in c
    ensures Split(a + "\n" + b + "\n" + c, '\n') == [a, b, c]
  {
    var bc := b + "\n" + c;
    assert a + "\n" + b + "\n" + c == a + "\n" + bc;
    SplitTwo(b, c);
    SplitCons(a, bc, '\n');
  }

  /** The downloader's report names the downloaded file and the page title:
      the content is stored, the file moved under its new id, the download
      directory cleared, and the job marked finished, freeing the downloader. */
  lemma DownloadStored(s: Loop, r: Round, file: string, title: string)
    requires s.downloadJob != 0 && r.content.Inserted?
    requires '\n' !in file && '\n' !in title
    ensures Dispatch(s, Message("MSG_DOWNLOADED", file + "\n" + title), r) ==
      After(Running, s.(downloadJob := 0, downloadUser := 0),
            [Db(InsertContent(s.downloadUser, 1, title)), Db(LastInsertId),
             Shell(MoveDownload(file, UInt32(r.content.id))), Shell(ClearDownloadDir),
             Db(FinishJob(s.downloadJob))])
  {
    SplitTwo(file, title);
    var calls := [InsertContent(s.downloadUser, 1, title), LastInsertId];
    assert Queries(calls) == [Db(calls[0]), Db(calls[1])] by {
      assert Queries(calls[1..]) == [Db(calls[1])];
    }
    assert Queries([FinishJob(s.downloadJob)]) == [Db(FinishJob(s.downloadJob))];
  }

  /** When the new content id cannot be fetched the report is dropped and the
      downloader stays busy with its job. */
  lemma DownloadNoId(s: Loop, r: Round, body: string)
    requires r.content.NoId? && |Split(body, '\n')| >= 2
    ensures var a := Dispatch(s, Message("MSG_DOWNLOADED", body), r);
      a.status == Running && a.loop == s && forall i :: 0 <= i < |a.effects| ==> a.effects[i].Db?
  {
  }

  /** A report that arrives while no job is outstanding marks job 0, which
      throws InvalParam out of the loop. */
  lemma IdleReportTerminates(s: Loop, r: Round, body: string)
    requires s.downloadJob == 0
    ensures Dispatch(s, Message("MSG_DOWNLOADFAIL", body), r).status == Terminated(InvalParam)
    ensures |Split(body, '\n')| >= 2 && !r.content.NoId? ==>
      Dispatch(s, Message("MSG_DOWNLOADED", body), r).status == Terminated(InvalParam)
  {
  }

  /** A client's download request of one URL becomes one pending job. */
  lemma ClientDownload(s: Loop, r: Round, url: string)
    requires '\n' !in url
    ensures Dispatch(s, Message("MSG_CLIENTREQ", "download\nsingle\n" + url), r) ==
      After(Running, s, [Db(InsertJob(1, "dS", url))])
  {
    var body := ["download", "single", url];
    assert "download\nsingle\n" + url == "download" + "\n" + "single" + "\n" + url;
    SplitThree("download", "single", url);
    assert JobInsert(1, body) == Returned((), [InsertJob(1, "dS", url)]);
    assert Queries([InsertJob(1, "dS", url)]) == [Db(InsertJob(1, "dS", url))];
    assert ClientRequest(s, body) == After(Running, s, [Db(InsertJob(1, "dS", url))]);
  }

  /** A client's delete request names the content by its decimal id. */
  lemma ClientDelete(s: Loop, r: Round, id: nat)
    requires id < TWO_TO_32
    ensures Dispatch(s, Message("MSG_CLIENTREQ", "delete\n" + Decimal(id)), r) ==
      After(Running, s, [Db(MarkDeleted(id))])
  {
    var d := Decimal(id);
    assert '\n' !in d by {
      assert forall k :: 0 <= k < |d| ==> IsDigit(d[k]);
    }
    SplitTwo("delete", d);
    assert "delete\n" + d == "delete" + "\n" + d;
    IdLineRoundTrip(id);
    assert Queries([MarkDeleted(id)]) == [Db(MarkDeleted(id))];
  }

  /** A delete request without an id line reads past the end of the body. */
  lemma ClientDeleteShort(s: Loop, r: Round)
    ensures Dispatch(s, Message("MSG_CLIENTREQ", "delete"), r).status == Undefined
  {
    assert FirstIndex("delete", '\n') == -1;
    assert Split("delete", '\n') == ["delete"];
    assert ClientRequest(s, ["delete"]).status == Undefined;
  }

  /** A client's rename request names the content by its decimal id and
      gives the new title. */
  lemma ClientRename(s: Loop, r: Round, id: nat, title: string)
    requires id < TWO_TO_32 && '\n' !in title
    ensures Dispatch(s, Message("MSG_CLIENTREQ", "rename\n" + Decimal(id) + "\n" + title), r) ==
      After(Running, s, [Db(Retitle(id, title))])
  {
    var d := Decimal(id);
    assert '\n' !in d by {
      assert forall k :: 0 <= k < |d| ==> IsDigit(d[k]);
    }
    SplitThree("rename", d, title);
    assert "rename\n" + d + "\n" + title == "rename" + "\n" + d + "\n" + title;
    IdLineRoundTrip(id);
  }

  /** A client request of any other kind is dropped. */
  lemma ClientUnknown(s: Loop, r: Round, kind: string, rest: string)
    requires '\n' !in kind && kind != "download" && kind != "delete" && kind != "rename"
    ensures Dispatch(s, Message("MSG_CLIENTREQ", kind + "\n" + rest), r) == After(Running, s, [])
  {
    SplitCons(kind, rest, '\n');
  }

  /** An archive request: a content row titled with the first line, its id
      fetched, then the archive row and one link per further line, in order;
      the loop's variables are untouched. */
  lemma ArchiveRequest(s: Loop, r: Round, body: string)
    requires r.content.Inserted? && r.archiveFailAt.None?
    ensures var lines := Split(body, '\n');
      var id := UInt32(r.content.id);
      Dispatch(s, Message("MSG_ARCHIVEREQ", body), r) ==
        After(Running, s, Queries([InsertContent(1, 1, lines[0]), LastInsertId, InsertArchive(id)] + Links(id, lines[1..])))
  {
    ArchiveInsertLinks(1, Split(body, '\n'), r.content.id);
  }

  /** After an SQL exception on the content insert the report is still
      acted on: the file is moved under content id 0 and the job is
      finished, freeing the downloader. */
  lemma DownloadInsertFails(s: Loop, r: Round, file: string, title: string)
    requires s.downloadJob != 0 && r.content.InsertFails?
    requires '\n' !in file && '\n' !in title
    ensures Dispatch(s, Message("MSG_DOWNLOADED", file + "\n" + title), r) ==
      After(Running, s.(downloadJob := 0, downloadUser := 0),
            [Db(InsertContent(s.downloadUser, 1, title)), Shell(MoveDownload(file, 0)), Shell(ClearDownloadDir),
             Db(FinishJob(s.downloadJob))])
  {
    SplitTwo(file, title);
    assert Queries([InsertContent(s.downloadUser, 1, title)]) == [Db(InsertContent(s.downloadUser, 1, title))];
    assert Queries([FinishJob(s.downloadJob)]) == [Db(FinishJob(s.downloadJob))];
  }

  /** MSG_QUIT ends main with 0 in the round it arrives, unless the archive
      poll has already stopped the loop. */
  lemma QuitExits(s: Loop, r: Round, body: string)
    requires r.received == Some(Message("MSG_QUIT", body))
    requires !(r.archive.Archive? && r.archive.content == Some([]) && UInt32(r.archive.id) == 0)
    ensures Step(s, r).status == Exited(0)
    ensures Run(s, [r]).status == Exited(0)
  {
  }
}
