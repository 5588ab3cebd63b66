/** The `pdfUploader` route of `src/app/api/uploadthing/core.ts`: the upload
    middleware, and the completion handler that records the file and then
    the outcome of indexing it. */
module Upload {
  import opened Domain
  import opened Query
  import opened Database
  import Router

  datatype UploadMetadata = UploadMetadata(userId: string)

  /** What the upload service reports about a stored file. */
  datatype UploadedFile = UploadedFile(key: string, name: string, url: string)

  /** The upload middleware: `None` is a `null` session user. */
  function Middleware(user: Option<SessionUser>): (r: Result<UploadMetadata, string>)
    ensures r.Err? <==> user.None? || !Truthy(user.value.id)
    ensures r.Err? ==> r.error == "Unauthorized"
    ensures r.Ok? ==> r.value.userId == user.value.id.value && r.value.userId != ""
  {
    if user.None? || !Truthy(user.value.id) then Err("Unauthorized")
    else Ok(UploadMetadata(user.value.id.value))
  }

  /** The outcomes of the foreign steps inside the `try` block: `fetched` for
      fetching the file and reading it as a blob, `pages` for the PDF loader
      (`None` when it throws), `indexed` for writing the page vectors. */
  datatype IndexRun = IndexRun(fetched: bool, pages: Option<seq<string>>, indexed: bool)

  /** A write of page documents into one namespace of the vector index. */
  datatype VectorUpsert = VectorUpsert(namespace: string, documents: seq<string>)

  /** The status the `try`/`catch` settles on. */
  function FinalStatus(run: IndexRun): (s: UploadStatus)
    ensures s == SUCCESS <==> run.fetched && run.pages.Some? && run.indexed
    ensures s == FAILED <==> !(run.fetched && run.pages.Some? && run.indexed)
  {
    if run.fetched && run.pages.Some? && run.indexed then SUCCESS else FAILED
  }

  /** Setting the status of a row appended with a fresh id touches that row only. */
  lemma {:induction false} SetStatusOfAppended(files: seq<File>, f: File, status: UploadStatus)
    requires FreshFileId(files, f.id)
    ensures SetStatus(files + [f], f.id, status) == files + [f.(uploadStatus := status)]
  {
    var r := SetStatus(files + [f], f.id, status);
    assert |r| == |files| + 1;
    forall i | 0 <= i < |files| + 1 ensures r[i] == (files + [f.(uploadStatus := status)])[i] {
      if i < |files| {
        assert (files + [f])[i] == files[i];
      }
    }
  }

  /** `onUploadComplete`: `newId` is the id the store gives the new row. */
  method OnUploadComplete(db: Db, metadata: UploadMetadata, file: UploadedFile, newId: string,
                          run: IndexRun)
    returns (upsert: Option<VectorUpsert>)
    requires db.Valid() && FreshFileId(db.files, newId)
    modifies db
    ensures db.Valid()
    ensures var created := File(newId, file.key, file.name, file.url, metadata.userId, PROCESSING);
      && db.files == old(db.files) + [created.(uploadStatus := FinalStatus(run))]
      && db.log == old(db.log) + [FileCreated(created), FileStatusSet(newId, FinalStatus(run))]
    ensures db.users == old(db.users) && db.messages == old(db.messages)
    ensures upsert.Some? <==> run.fetched && run.pages.Some?
    ensures upsert.Some? ==> upsert.value == VectorUpsert(newId, run.pages.value)
  {
    var created := File(newId, file.key, file.name, file.url, metadata.userId, PROCESSING);
    db.CreateFile(created);
    assert db.files[|db.files| - 1] == created;
    SetStatusOfAppended(old(db.files), created, FinalStatus(run));
    var failed := false;
    upsert := None;
    if !run.fetched {
      failed := true;
    } else if run.pages.None? {
      failed := true;
    } else {
      upsert := Some(VectorUpsert(created.id, run.pages.value));
      if !run.indexed {
        failed := true;
      } else {
        var _ := db.UpdateFileStatus(created.id, SUCCESS);
      }
    }
    if failed {
      var _ := db.UpdateFileStatus(created.id, FAILED);
    }
  }

  /** The upload status states a file passes through. */
  predicate Step(from: UploadStatus, to: UploadStatus) {
    || (from == PENDING && to == PROCESSING)
    || (from == PROCESSING && (to == SUCCESS || to == FAILED))
  }

  /** What `getFileUploadStatus` reports for the new file before the upload
      completes, after the row is created and after the outcome is recorded:
      PENDING, PROCESSING, then SUCCESS or FAILED, each a `Step` of the last,
      and the last a state with no step out; any other caller sees PENDING
      throughout. */
  lemma StatusTimeline(files: seq<File>, created: File, run: IndexRun, other: string)
    requires FileIdsUnique(files) && FreshFileId(files, created.id)
    requires created.uploadStatus == PROCESSING && other != created.userId
    ensures var owner, id := created.userId, created.id;
      var final := files + [created.(uploadStatus := FinalStatus(run))];
      && Router.GetFileUploadStatus(files, owner, id) == PENDING
      && Router.GetFileUploadStatus(files + [created], owner, id) == PROCESSING
      && Router.GetFileUploadStatus(final, owner, id) == FinalStatus(run)
      && Step(PENDING, PROCESSING) && Step(PROCESSING, FinalStatus(run))
      && (forall s :: !Step(FinalStatus(run), s))
      && Router.GetFileUploadStatus(files, other, id) == PENDING
      && Router.GetFileUploadStatus(files + [created], other, id) == PENDING
      && Router.GetFileUploadStatus(final, other, id) == PENDING
  {
    var final := files + [created.(uploadStatus := FinalStatus(run))];
    assert FileIdsUnique(files + [created]);
    assert FileIdsUnique(final);
    assert (files + [created])[|files|] == created;
    assert final[|files|] == created.(uploadStatus := FinalStatus(run));
  }
}
