/** The dosql_* functions: the checks they make on a parsed message body, the
    fields they extract, and when they return, report failure or throw. The
    database is not modelled: each function returns the statements it would
    execute, and what the database answers is a parameter. */
module SqlStmt {

  import opened Wrappers
  import opened Defs
  import opened Numerals

  /** A statement executed against the database, with its parameters. */
  datatype DbCall =
    | InsertContent(userId: int, folderId: int, title: string)
    | LastInsertId
    | InsertArchive(archiveId: nat)
    | LinkArchiveContent(archiveId: nat, contentId: nat)
    | MarkDeleted(contentId: nat)
    | Retitle(contentId: nat, title: string)
    | InsertJob(userId: int, jobType: string, url: string)
    | SelectPendingJob
    | SelectOpenArchive
    | SelectArchiveContent(archiveId: nat)
    | FinishArchive(archiveId: nat)
    | FailJob(jobId: nat)
    | FinishJob(jobId: nat)

  /** How a dosql_* call ends: it returns a value after executing `calls`, it
      throws a CAP_Exception, or it dereferences past the end of the body list. */
  datatype DbEnd<T> = Returned(value: T, calls: seq<DbCall>) | Raised(err: CapError) | Crashed

  /** A content record of an archive (sql.h). */
  datatype ContentRec = ContentRec(id: nat, title: string)

  /** What the database answers to inserting a content row and asking for
      its id: the id (read as a 32-bit unsigned), no row, an SQL exception
      from the insert, or an SQL exception from the id query after the
      insert. */
  datatype ContentAnswer = Inserted(id: nat) | NoId | InsertFails | IdQueryFails

  /** dosql_content_insert: the file name is the first line and the title the
      second. It reports false only when the new id cannot be fetched; after
      an SQL exception it still reports true and leaves the id as it was. */
  function ContentInsert(body: seq<string>, userId: int, contentId: nat, ans: ContentAnswer)
    : (r: DbEnd<(bool, string, nat)>)
    ensures |body| < 2 <==> r.Crashed?
    ensures !r.Raised?
    ensures r.Returned? ==>
      r.value.1 == body[0] && |r.calls| >= 1 && r.calls[0] == InsertContent(userId, 1, body[1])
    ensures r.Returned? ==> (!r.value.0 <==> ans.NoId?)
    ensures r.Returned? ==> r.value.2 == (if ans.Inserted? then UInt32(ans.id) else contentId)
  {
    if |body| < 2 then Crashed
    else
      var insert := InsertContent(userId, 1, body[1]);
      match ans
      case InsertFails => Returned((true, body[0], contentId), [insert])
      case IdQueryFails => Returned((true, body[0], contentId), [insert, LastInsertId])
      case NoId => Returned((false, body[0], contentId), [insert, LastInsertId])
      case Inserted(id) => Returned((true, body[0], UInt32(id)), [insert, LastInsertId])
  }

  /** The statements dosql_content_insert executes: the insert, then the id
      query unless the insert threw. */
  lemma ContentInsertCalls(body: seq<string>, userId: int, contentId: nat, ans: ContentAnswer)
    requires |body| >= 2
    ensures var r := ContentInsert(body, userId, contentId, ans);
      r.Returned? && r.calls == [InsertContent(userId, 1, body[1])] + (if ans.InsertFails? then [] else [LastInsertId])
  {
  }

  /** The link statements for the content ids listed after the title. */
  function Links(archiveId: nat, lines: seq<string>): (calls: seq<DbCall>)
    ensures |calls| == |lines|
    ensures forall i :: 0 <= i < |lines| ==>
      calls[i] == LinkArchiveContent(archiveId, UInt32(Strtoul0(lines[i])))
  {
    if |lines| == 0 then []
    else [LinkArchiveContent(archiveId, UInt32(Strtoul0(lines[0])))] + Links(archiveId, lines[1..])
  }

  /** dosql_archive_insert: an archive is a content row titled with the first
      line (twice over, as file name and title), then an archive row and one
      link per remaining line. `failAt` is the index of the first archive
      statement that raises an SQL exception, which ends the function. */
  function ArchiveInsert(userId: int, body: seq<string>, ans: ContentAnswer, failAt: Option<nat>)
    : (r: DbEnd<()>)
    ensures |body| == 0 <==> r.Crashed?
    ensures !r.Raised?
  {
    if |body| == 0 then Crashed
    else
      var title := body[0];
      match ContentInsert([title, title], userId, 0, ans)
      case Returned((ok, _, archiveId), calls) =>
        if !ok then Returned((), calls)
        else
          var updates := [InsertArchive(archiveId)] + Links(archiveId, body[1..]);
          var done := if failAt.Some? && failAt.value < |updates| then failAt.value + 1 else |updates|;
          Returned((), calls + updates[..done])
      case _ => Crashed
  }

  /** dosql_content_delete: marks the content whose id the second line holds;
      the length of the body is never checked. */
  function ContentDelete(body: seq<string>): (r: DbEnd<()>)
    ensures |body| < 2 <==> r.Crashed?
    ensures r.Returned? ==> r.calls == [MarkDeleted(UInt32(Atol(body[1])))]
  {
    if |body| < 2 then Crashed else Returned((), [MarkDeleted(UInt32(Atol(body[1])))])
  }

  /** dosql_content_rename: with exactly three lines, sets the title given by
      the third line on the content whose id the second line holds. */
  function ContentRename(body: seq<string>): (r: DbEnd<()>)
    ensures r.Returned?
    ensures |body| != 3 ==> r.calls == []
    ensures |body| == 3 ==> r.calls == [Retitle(UInt32(Atol(body[1])), body[2])]
  {
    if |body| != 3 then Returned((), []) else Returned((), [Retitle(UInt32(Atol(body[1])), body[2])])
  }

  /** dosql_job_insert: a three-line request "download", "single", URL becomes
      a pending job of type "dS"; anything else is discarded. */
  function JobInsert(userId: int, body: seq<string>): (r: DbEnd<()>)
    ensures r.Returned? && |r.calls| <= 1
    ensures |r.calls| == 1 <==> |body| == 3 && body[0] == "download" && body[1] == "single"
    ensures |r.calls| == 1 ==> r.calls[0] == InsertJob(userId, "dS", body[2])
  {
    if |body| != 3 then Returned((), [])
    else if body[0] != "download" then Returned((), [])
    else if body[1] != "single" then Returned((), [])
    else Returned((), [InsertJob(userId, "dS", body[2])])
  }

  /** A pending job row: its id, user, type and URL. */
  datatype JobRow = JobRow(id: int, userId: int, jobType: string, url: string)

  /** The field fetch of dosql_job_select that throws once the id has been
      copied: the user id, the type or the URL. */
  datatype JobFetch = UserIdFetch | TypeFetch | UrlFetch

  /** What the query for a pending job answers: no row, a row, an SQL
      exception before any field is copied, or a row whose fields are copied
      in turn until the fetch `at` throws. */
  datatype JobAnswer = NoJob | Job(row: JobRow) | JobQueryFails | JobFetchFails(row: JobRow, at: JobFetch)

  /** The four output parameters of dosql_job_select. */
  datatype JobFields = JobFields(jobId: nat, userId: int, jobType: string, url: string)

  /** dosql_job_select: copies the first pending job into its outputs, id,
      user, type and URL in that order. It reports true also when there is
      none, leaving the outputs as they were; an SQL exception gives false,
      with the fields copied before it already set. */
  function JobSelect(prior: JobFields, ans: JobAnswer): (r: DbEnd<(bool, JobFields)>)
    ensures r.Returned? && r.calls == [SelectPendingJob]
    ensures r.value.0 <==> ans.NoJob? || ans.Job?
    ensures ans.NoJob? || ans.JobQueryFails? ==> r.value.1 == prior
    ensures ans.Job? ==> r.value.1 == JobFields(UInt32(ans.row.id), ans.row.userId, ans.row.jobType, ans.row.url)
    ensures ans.JobFetchFails? ==>
      r.value.1.jobId == UInt32(ans.row.id)
      && r.value.1.userId == (if ans.at == UserIdFetch then prior.userId else ans.row.userId)
      && r.value.1.jobType == (if ans.at == UrlFetch then ans.row.jobType else prior.jobType)
      && r.value.1.url == prior.url
  {
    match ans
    case NoJob => Returned((true, prior), [SelectPendingJob])
    case JobQueryFails => Returned((false, prior), [SelectPendingJob])
    case Job(row) => Returned((true, JobFields(UInt32(row.id), row.userId, row.jobType, row.url)), [SelectPendingJob])
    case JobFetchFails(row, at) =>
      var f1 := prior.(jobId := UInt32(row.id));
      var f2 := if at == UserIdFetch then f1 else f1.(userId := row.userId);
      var f3 := if at == UrlFetch then f2.(jobType := row.jobType) else f2;
      Returned((false, f3), [SelectPendingJob])
  }

  /** What the queries for an open archive answer: none; an archive (its id,
      its user, and either its content records or an SQL exception from the
      content query itself); an archive whose user_id fetch throws after its
      id was copied; an archive whose content records throw while being
      fetched, after `fetched` were appended; or an SQL exception from the
      first query. */
  datatype ArchiveAnswer =
    | NoArchive
    | Archive(id: int, userId: int, content: Option<seq<ContentRec>>)
    | UserIdFails(id: int)
    | ContentFails(id: int, userId: int, fetched: seq<ContentRec>)
    | ArchiveQueryFails

  /** The outputs of dosql_archive_select. */
  datatype ArchiveFields = ArchiveFields(archiveId: nat, userId: int, content: seq<ContentRec>)

  /** dosql_archive_select: the first open archive and its content records.
      Every failure after the archive's id is copied reports false with the
      id (and, once fetched, the user and the records read so far) already
      set. */
  function ArchiveSelect(prior: ArchiveFields, ans: ArchiveAnswer): (r: DbEnd<(bool, ArchiveFields)>)
    ensures r.Returned?
    ensures r.value.0 <==> ans.Archive? && ans.content.Some?
    ensures ans.NoArchive? || ans.ArchiveQueryFails? ==> r.value.1 == prior && r.calls == [SelectOpenArchive]
    ensures ans.Archive? ==>
      r.value.1.archiveId == UInt32(ans.id) && r.value.1.userId == ans.userId
      && r.calls == [SelectOpenArchive, SelectArchiveContent(UInt32(ans.id))]
      && r.value.1.content == prior.content + (if ans.content.Some? then ans.content.value else [])
    ensures ans.UserIdFails? ==>
      r.value.1 == prior.(archiveId := UInt32(ans.id)) && r.calls == [SelectOpenArchive]
    ensures ans.ContentFails? ==>
      r.value.1 == ArchiveFields(UInt32(ans.id), ans.userId, prior.content + ans.fetched)
      && r.calls == [SelectOpenArchive, SelectArchiveContent(UInt32(ans.id))]
  {
    match ans
    case NoArchive => Returned((false, prior), [SelectOpenArchive])
    case ArchiveQueryFails => Returned((false, prior), [SelectOpenArchive])
    case UserIdFails(id) => Returned((false, prior.(archiveId := UInt32(id))), [SelectOpenArchive])
    case ContentFails(id, userId, fetched) =>
      Returned((false, ArchiveFields(UInt32(id), userId, prior.content + fetched)),
               [SelectOpenArchive, SelectArchiveContent(UInt32(id))])
    case Archive(id, userId, content) =>
      var calls := [SelectOpenArchive, SelectArchiveContent(UInt32(id))];
      match content
      case None => Returned((false, ArchiveFields(UInt32(id), userId, prior.content)), calls)
      case Some(recs) => Returned((true, ArchiveFields(UInt32(id), userId, prior.content + recs)), calls)
  }

  /** dosql_archive_finish, dosql_job_failed and dosql_job_finish: an id of 0
      throws InvalParam; any other id is updated, and an SQL exception is
      swallowed. */
  function Finish(id: nat, call: DbCall): (r: DbEnd<()>)
    ensures id == 0 <==> r == Raised(InvalParam)
    ensures id != 0 ==> r == Returned((), [call])
  {
    if id == 0 then Raised(InvalParam) else Returned((), [call])
  }

  function ArchiveFinish(id: nat): (r: DbEnd<()>)
    ensures id == 0 <==> r == Raised(InvalParam)
    ensures id != 0 ==> r == Returned((), [FinishArchive(id)])
  {
    Finish(id, FinishArchive(id))
  }

  function JobFailed(id: nat): (r: DbEnd<()>)
    ensures id == 0 <==> r == Raised(InvalParam)
    ensures id != 0 ==> r == Returned((), [FailJob(id)])
  {
    Finish(id, FailJob(id))
  }

  function JobFinish(id: nat): (r: DbEnd<()>)
    ensures id == 0 <==> r == Raised(InvalParam)
    ensures id != 0 ==> r == Returned((), [FinishJob(id)])
  {
    Finish(id, FinishJob(id))
  }

  /** An archive request of a title and n content ids makes, when every
      statement succeeds, one archive row and n links, in the order of the
      lines. */
  lemma ArchiveInsertLinks(userId: int, body: seq<string>, id: nat)
    requires |body| >= 1
    ensures var r := ArchiveInsert(userId, body, Inserted(id), None);
      r.Returned? && r.calls == [InsertContent(userId, 1, body[0]), LastInsertId, InsertArchive(UInt32(id))]
                                + Links(UInt32(id), body[1..])
      && |r.calls| == |body| + 2
  {
    var updates := [InsertArchive(UInt32(id))] + Links(UInt32(id), body[1..]);
    assert updates[..|updates|] == updates;
  }

  /** When the new content id cannot be fetched, no archive row is made. */
  lemma ArchiveInsertNoId(userId: int, body: seq<string>, failAt: Option<nat>)
    requires |body| >= 1
    ensures ArchiveInsert(userId, body, NoId, failAt) == Returned((), [InsertContent(userId, 1, body[0]), LastInsertId])
  {
  }

  /** An SQL exception on the content insert leaves the id at 0, and the
      archive row and its links are still made, under id 0. */
  lemma ArchiveInsertUnderZero(userId: int, body: seq<string>)
    requires |body| >= 1
    ensures var r := ArchiveInsert(userId, body, InsertFails, None);
      r.Returned? && |r.calls| == |body| + 1 && r.calls[1] == InsertArchive(0)
      && forall i :: 2 <= i < |r.calls| ==> r.calls[i].LinkArchiveContent? && r.calls[i].archiveId == 0
  {
    var updates := [InsertArchive(0)] + Links(0, body[1..]);
    assert updates[..|updates|] == updates;
    var title := body[0];
    assert ContentInsert([title, title], userId, 0, InsertFails)
        == Returned((true, title, 0), [InsertContent(userId, 1, title)]);
    var r := ArchiveInsert(userId, body, InsertFails, None);
    assert r.calls == [InsertContent(userId, 1, title)] + updates;
    forall i | 2 <= i < |r.calls|
      ensures r.calls[i].LinkArchiveContent? && r.calls[i].archiveId == 0
    {
      assert r.calls[i] == Links(0, body[1..])[i - 2];
    }
  }

  /** An id written in decimal on the second line is the id renamed or
      deleted. */
  lemma IdLineRoundTrip(id: nat)
    requires id < TWO_TO_32
    ensures UInt32(Atol(Decimal(id))) == id
  {
    AtolDecimal(id);
  }
}
