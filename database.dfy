/** The relational store the handlers share: three tables updated in place,
    with a record of every write made to them. */
module Database {
  import opened Domain
  import opened Query

  /** One write issued to the store, in the order issued. */
  datatype Write =
    | UserCreated(user: User)
    | FileCreated(file: File)
    | FileStatusSet(id: string, status: UploadStatus)
    | FileDeleted(id: string)
    | MessageCreated(message: Message)

  predicate FreshFileId(files: seq<File>, id: string) {
    forall i :: 0 <= i < |files| ==> files[i].id != id
  }

  predicate FreshMessageId(ms: seq<Message>, id: string) {
    forall i :: 0 <= i < |ms| ==> ms[i].id != id
  }

  /** The file table after `update({where: {id}, data: {uploadStatus: status}})`. */
  function SetStatus(files: seq<File>, id: string, status: UploadStatus): seq<File> {
    seq(|files|, i requires 0 <= i < |files| =>
      if files[i].id == id then files[i].(uploadStatus := status) else files[i])
  }

  /** The file table after `delete({where: {id}})`. */
  function RemoveFile(files: seq<File>, id: string): seq<File> {
    if files == [] then []
    else
      var rest := RemoveFile(files[1..], id);
      if files[0].id == id then rest else [files[0]] + rest
  }

  /** Deleting by id keeps exactly the rows with another id. */
  lemma {:induction false} RemoveFileKeeps(files: seq<File>, id: string)
    ensures forall f :: f in RemoveFile(files, id) <==> f in files && f.id != id
  {
    if files != [] {
      RemoveFileKeeps(files[1..], id);
      RemoveFileUnfold(files, id);
      assert forall f :: f in files <==> f == files[0] || f in files[1..];
    }
  }

  /** Deleting keeps the ids unique. */
  lemma {:induction false} RemoveFileUnique(files: seq<File>, id: string)
    requires FileIdsUnique(files)
    ensures FileIdsUnique(RemoveFile(files, id))
  {
    if files != [] {
      var rest := files[1..];
      var tail := RemoveFile(rest, id);
      assert FileIdsUnique(rest) by {
        forall i, j | 0 <= i < j < |rest| ensures rest[i].id != rest[j].id {
          assert rest[i] == files[i + 1] && rest[j] == files[j + 1];
        }
      }
      RemoveFileUnique(rest, id);
      RemoveFileUnfold(files, id);
      if files[0].id != id {
        RemoveFileKeeps(rest, id);
        var r := [files[0]] + tail;
        forall i, j | 0 <= i < j < |r| ensures r[i].id != r[j].id {
          if i == 0 {
            assert r[j] == tail[j - 1] && tail[j - 1] in tail;
            var k :| 0 <= k < |rest| && rest[k] == r[j];
            assert files[k + 1] == r[j];
          } else {
            assert r[i] == tail[i - 1] && r[j] == tail[j - 1];
          }
        }
      }
    }
  }

  /** With unique ids, deleting removes exactly the row that has the id and
      keeps every other row, in order. */
  lemma {:induction false} RemoveFileAt(files: seq<File>, k: nat)
    requires FileIdsUnique(files) && k < |files|
    ensures RemoveFile(files, files[k].id) == files[..k] + files[k + 1..]
  {
    var id := files[k].id;
    var rest := files[1..];
    RemoveFileUnfold(files, id);
    if k == 0 {
      assert FreshFileId(rest, id) by {
        forall i | 0 <= i < |rest| ensures rest[i].id != id {
          assert rest[i] == files[i + 1];
        }
      }
      RemoveFileAbsent(rest, id);
    } else {
      assert files[0].id != id;
      assert FileIdsUnique(rest) by {
        forall i, j | 0 <= i < j < |rest| ensures rest[i].id != rest[j].id {
          assert rest[i] == files[i + 1] && rest[j] == files[j + 1];
        }
      }
      assert rest[k - 1] == files[k];
      RemoveFileAt(rest, k - 1);
      assert files[..k] == [files[0]] + rest[..k - 1];
      assert files[k + 1..] == rest[k..];
    }
  }

  /** One step of `RemoveFile`. */
  lemma RemoveFileUnfold(files: seq<File>, id: string)
    requires files != []
    ensures RemoveFile(files, id)
            == (if files[0].id == id then [] else [files[0]]) + RemoveFile(files[1..], id)
  {
  }

  /** Deleting an id no row has changes nothing. */
  lemma {:induction false} RemoveFileAbsent(files: seq<File>, id: string)
    requires FreshFileId(files, id)
    ensures RemoveFile(files, id) == files
  {
    if files != [] {
      RemoveFileUnfold(files, id);
      RemoveFileAbsent(files[1..], id);
    }
  }

  class Db {
    var users: seq<User>
    var files: seq<File>
    var messages: seq<Message>
    ghost var log: seq<Write>

    /** Primary keys are unique, and message ids are non-empty strings, as
        the ORM's generated ids are. */
    ghost predicate Valid()
      reads this
    {
      && FileIdsUnique(files)
      && IdsUnique(messages)
      && (forall i :: 0 <= i < |messages| ==> messages[i].id != "")
    }

    constructor ()
      ensures Valid()
      ensures users == [] && files == [] && messages == [] && log == []
    {
      users, files, messages, log := [], [], [], [];
    }

    /** `db.user.create({data: u})`. */
    method CreateUser(u: User)
      requires Valid()
      modifies this
      ensures Valid()
      ensures users == old(users) + [u]
      ensures files == old(files) && messages == old(messages)
      ensures log == old(log) + [UserCreated(u)]
    {
      users := users + [u];
      log := log + [UserCreated(u)];
    }

    /** `db.file.create({data: f})`; `f.id` is the id the store generates. */
    method CreateFile(f: File)
      requires Valid() && FreshFileId(files, f.id)
      modifies this
      ensures Valid()
      ensures files == old(files) + [f]
      ensures users == old(users) && messages == old(messages)
      ensures log == old(log) + [FileCreated(f)]
    {
      files := files + [f];
      log := log + [FileCreated(f)];
    }

    /** `db.file.update({where: {id}, data: {uploadStatus: status}})`;
        `found` is false where the store would throw for a missing row. */
    method UpdateFileStatus(id: string, status: UploadStatus) returns (found: bool)
      requires Valid()
      modifies this
      ensures Valid()
      ensures found <==> !FreshFileId(old(files), id)
      ensures files == if found then SetStatus(old(files), id, status) else old(files)
      ensures users == old(users) && messages == old(messages)
      ensures log == old(log) + if found then [FileStatusSet(id, status)] else []
    {
      found := exists i | 0 <= i < |files| :: files[i].id == id;
      if found {
        files := SetStatus(files, id, status);
        log := log + [FileStatusSet(id, status)];
      }
    }

    /** `db.file.delete({where: {id}})`. */
    method DeleteFileById(id: string) returns (deleted: Option<File>)
      requires Valid()
      modifies this
      ensures Valid()
      ensures deleted.Some? <==> !FreshFileId(old(files), id)
      ensures deleted.Some? ==> deleted.value in old(files) && deleted.value.id == id
      ensures files == RemoveFile(old(files), id)
      ensures users == old(users) && messages == old(messages)
      ensures log == old(log) + if deleted.Some? then [FileDeleted(id)] else []
    {
      if exists i | 0 <= i < |files| :: files[i].id == id {
        var i :| 0 <= i < |files| && files[i].id == id;
        deleted := Some(files[i]);
        log := log + [FileDeleted(id)];
      } else {
        deleted := None;
        RemoveFileAbsent(files, id);
      }
      RemoveFileUnique(files, id);
      files := RemoveFile(files, id);
    }

    /** `db.message.create({data: m})`; `m.id` is the id the store generates. */
    method CreateMessage(m: Message)
      requires Valid() && m.id != "" && FreshMessageId(messages, m.id)
      modifies this
      ensures Valid()
      ensures messages == old(messages) + [m]
      ensures users == old(users) && files == old(files)
      ensures log == old(log) + [MessageCreated(m)]
    {
      messages := messages + [m];
      log := log + [MessageCreated(m)];
    }
  }
}
