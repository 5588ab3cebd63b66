/** The `POST` handler of `src/app/api/message/route.ts`: it stores the
    question, searches the file's vectors, reads the conversation so far and
    asks the model, storing the answer once the stream completes. */
module MessageRoute {
  import opened Domain
  import opened Query
  import opened Database
  import opened Prompt

  /** The parsed request body. */
  datatype SendMessage = SendMessage(fileId: string, message: string)

  /** `Thrown` is an exception of the handler's own code that reaches the
      framework, `Rejected` a rejection coming from a foreign call, `Plain` a
      plain text response, `Streaming` the streamed model answer. */
  datatype Response = Thrown(error: Exception) | Rejected | Plain(status: int, text: string) | Streaming

  /** The awaited call, after the question is stored, that throws: opening
      the vector index, the similarity search, the history read or the
      completion request. */
  datatype Failure = IndexOpenFailed | SearchFailed | HistoryReadFailed | CompletionFailed

  /** A similarity search of the vector index. */
  datatype VectorQuery = VectorQuery(index: string, namespace: string, query: string, k: nat)

  const HistorySize: nat := 6
  const SearchK: nat := 4

  /** The previous messages: the file's six oldest, oldest first. */
  function History(ms: seq<Message>, fileId: string): (r: seq<Message>)
    ensures |r| == Min(HistorySize, |FileMessages(ms, fileId)|)
    ensures forall i :: 0 <= i < |r| ==> r[i] in ms && r[i].fileId == fileId
    ensures Sorted(r, Asc)
  {
    var rows := Rows(ms, fileId, Asc);
    assert rows[Start(rows, None)..] == rows;
    RowsOfFile(ms, fileId, Asc);
    FindMessagesRows(ms, fileId, Asc, HistorySize, None);
    FindMessages(ms, fileId, Asc, HistorySize, None)
  }

  /** `History` is a prefix of the file's rows in ascending order. */
  lemma HistoryIsPrefix(ms: seq<Message>, fileId: string)
    ensures var h := History(ms, fileId);
      h == Rows(ms, fileId, Asc)[..|h|]
  {
    var rows := Rows(ms, fileId, Asc);
    assert rows[Start(rows, None)..] == rows;
  }

  /** Nothing of the file left out of the history is older than anything in it. */
  lemma HistoryIsOldest(ms: seq<Message>, fileId: string, m: Message)
    requires m in ms && m.fileId == fileId && m !in History(ms, fileId)
    ensures forall i :: 0 <= i < |History(ms, fileId)| ==>
              History(ms, fileId)[i].createdAt <= m.createdAt
  {
    var h := History(ms, fileId);
    var rows := Rows(ms, fileId, Asc);
    HistoryIsPrefix(ms, fileId);
    RowsOfFile(ms, fileId, Asc);
    FileMessagesCount(ms, fileId);
    assert multiset(FileMessages(ms, fileId))[m] > 0;
    assert m in multiset(rows);
    var k :| 0 <= k < |rows| && rows[k] == m;
    forall i | 0 <= i < |h| ensures h[i].createdAt <= m.createdAt {
      assert h[i] == rows[i];
      assert InOrder(rows[i], rows[k], Asc);
    }
  }

  lemma {:induction false} FileMessagesAppend(ms: seq<Message>, m: Message, fileId: string)
    requires m.fileId == fileId
    ensures FileMessages(ms + [m], fileId) == FileMessages(ms, fileId) + [m]
  {
    var t := ms + [m];
    if ms == [] {
      assert FileMessages(t, fileId) == [m] + FileMessages(t[1..], fileId);
      assert t[1..] == [];
    } else {
      var head := if ms[0].fileId == fileId then [ms[0]] else [];
      assert t[0] == ms[0];
      assert t[1..] == ms[1..] + [m];
      FileMessagesAppend(ms[1..], m, fileId);
      assert FileMessages(t, fileId) == head + (FileMessages(ms[1..], fileId) + [m]);
      assert FileMessages(ms, fileId) == head + FileMessages(ms[1..], fileId);
      assert head + (FileMessages(ms[1..], fileId) + [m]) == (head + FileMessages(ms[1..], fileId)) + [m];
    }
  }

  lemma {:induction false} InsertBeforeLast(x: Message, t: seq<Message>, m: Message)
    requires x.createdAt <= m.createdAt
    ensures Insert(x, t + [m], Asc) == Insert(x, t, Asc) + [m]
  {
    if t == [] {
      assert Insert(x, [m], Asc) == [x, m];
    } else if InOrder(x, t[0], Asc) {
      assert (t + [m])[0] == t[0];
      assert Insert(x, t + [m], Asc) == [x] + (t + [m]);
    } else {
      var t' := t[1..];
      assert (t + [m])[0] == t[0];
      assert (t + [m])[1..] == t' + [m];
      InsertBeforeLast(x, t', m);
      assert Insert(x, t + [m], Asc) == [t[0]] + Insert(x, t' + [m], Asc);
      assert Insert(x, t, Asc) == [t[0]] + Insert(x, t', Asc);
    }
  }

  /** Sorting ascending places a row no older than all others last. */
  lemma {:induction false} SortAppendNewest(s: seq<Message>, m: Message)
    requires forall x :: x in s ==> x.createdAt <= m.createdAt
    ensures SortBy(s + [m], Asc) == SortBy(s, Asc) + [m]
  {
    if s != [] {
      assert (s + [m])[0] == s[0];
      assert (s + [m])[1..] == s[1..] + [m];
      SortAppendNewest(s[1..], m);
      InsertBeforeLast(s[0], SortBy(s[1..], Asc), m);
    }
  }

  /** Storing a row no older than the file's others appends it to the file's
      ascending rows. */
  lemma RowsAppendNewest(ms: seq<Message>, asked: Message)
    requires forall x :: x in ms && x.fileId == asked.fileId ==> x.createdAt <= asked.createdAt
    ensures Rows(ms + [asked], asked.fileId, Asc) == Rows(ms, asked.fileId, Asc) + [asked]
  {
    var before := FileMessages(ms, asked.fileId);
    FileMessagesAppend(ms, asked, asked.fileId);
    FileMessagesCount(ms, asked.fileId);
    forall x | x in before ensures x.createdAt <= asked.createdAt {
      assert multiset(before)[x] > 0;
    }
    SortAppendNewest(before, asked);
  }

  lemma PrefixOfAppended(rows: seq<Message>, asked: Message, n: nat)
    requires asked !in rows
    ensures asked in (rows + [asked])[..Min(n, |rows| + 1)] <==> |rows| < n
  {
    var p := (rows + [asked])[..Min(n, |rows| + 1)];
    if |rows| < n {
      assert p[|rows|] == asked;
    } else {
      assert p == rows[..n];
    }
  }

  /** A question stored after every earlier message of its file is part of
      the history it is answered with exactly when the file had fewer than
      six messages before it. */
  lemma NewQuestionInHistory(ms: seq<Message>, asked: Message)
    requires asked !in ms
    requires forall x :: x in ms && x.fileId == asked.fileId ==> x.createdAt <= asked.createdAt
    ensures asked in History(ms + [asked], asked.fileId)
            <==> |FileMessages(ms, asked.fileId)| < HistorySize
  {
    var fileId := asked.fileId;
    var rows := Rows(ms, fileId, Asc);
    RowsAppendNewest(ms, asked);
    RowsOfFile(ms, fileId, Asc);
    HistoryIsPrefix(ms + [asked], fileId);
    assert asked !in rows;
    PrefixOfAppended(rows, asked, HistorySize);
  }

  /** The part of `POST` after the question `asked` is stored: the vector
      search, the history read, the completion request and, once the stream
      completes, the stored answer. `failure` is the foreign call that throws
      (`None` when none does). */
  method Answer(db: Db, asked: Message, failure: Option<Failure>, results: seq<string>,
                completion: Option<string>, replyId: string, repliedAt: int)
    returns (response: Response, search: Option<VectorQuery>, request: Option<CompletionRequest>)
    requires db.Valid() && replyId != "" && FreshMessageId(db.messages, replyId)
    modifies db
    ensures db.Valid()
    ensures db.users == old(db.users) && db.files == old(db.files)
    ensures response.Streaming? <==> failure.None?
    ensures failure.Some? ==> response == Rejected
    ensures var answers := if failure.None? && completion.Some?
                           then [Message(replyId, completion.value, false, repliedAt, asked.userId, asked.fileId)]
                           else [];
      && db.messages == old(db.messages) + answers
      && db.log == old(db.log) + seq(|answers|, i requires 0 <= i < |answers| => MessageCreated(answers[i]))
    ensures search.Some? <==> failure != Some(IndexOpenFailed)
    ensures search.Some? ==> search.value == VectorQuery("pdf-helper", asked.fileId, asked.text, SearchK)
    ensures request.Some? <==> failure.None? || failure == Some(CompletionFailed)
    ensures request.Some? ==>
              request.value == CompletionRequestFor(History(old(db.messages), asked.fileId), results, asked.text)
  {
    search, request := None, None;
    if failure.Some? && failure.value.IndexOpenFailed? {
      return Rejected, search, request;
    }
    search := Some(VectorQuery("pdf-helper", asked.fileId, asked.text, SearchK));
    if failure.Some? && (failure.value.SearchFailed? || failure.value.HistoryReadFailed?) {
      return Rejected, search, request;
    }
    var prevMessages := FindMessages(db.messages, asked.fileId, Asc, HistorySize, None);
    request := Some(CompletionRequestFor(prevMessages, results, asked.text));
    if failure.Some? {
      assert failure.value.CompletionFailed?;
      return Rejected, search, request;
    }
    if completion.Some? {
      db.CreateMessage(Message(replyId, completion.value, false, repliedAt, asked.userId, asked.fileId));
    }
    response := Streaming;
  }

  /** `POST`: `user` is the session user (`None` for `null`), `askedId` and
      `askedAt` the id and time the store gives the question; the other
      parameters are those of `Answer`. */
  method Post(db: Db, user: Option<SessionUser>, body: SendMessage,
              askedId: string, askedAt: int, failure: Option<Failure>, results: seq<string>,
              completion: Option<string>, replyId: string, repliedAt: int)
    returns (response: Response, search: Option<VectorQuery>, request: Option<CompletionRequest>)
    requires db.Valid()
    requires askedId != "" && replyId != "" && askedId != replyId
    requires FreshMessageId(db.messages, askedId) && FreshMessageId(db.messages, replyId)
    modifies db
    ensures db.Valid()
    ensures db.users == old(db.users) && db.files == old(db.files)
    ensures user.None? ==> response == Thrown(TypeError)
    ensures user.Some? && !Truthy(user.value.id) ==> response == Plain(401, "Unauthorized")
    ensures user.Some? && Truthy(user.value.id)
            && FindFirstFile(old(db.files), ById(body.fileId, user.value.id.value)).None?
            ==> response == Plain(404, "Not found")
    ensures var owned := user.Some? && Truthy(user.value.id)
                         && FindFirstFile(old(db.files), ById(body.fileId, user.value.id.value)).Some?;
      && (!owned ==>
            db.messages == old(db.messages) && db.log == old(db.log) && search.None? && request.None?)
      && (owned ==> (response.Streaming? <==> failure.None?))
      && (owned && failure.Some? ==> response == Rejected)
    ensures response.Streaming? || response == Rejected ==>
              var userId := user.value.id.value;
              var asked := Message(askedId, body.message, true, askedAt, userId, body.fileId);
              var answers := if response.Streaming? && completion.Some?
                             then [Message(replyId, completion.value, false, repliedAt, userId, body.fileId)]
                             else [];
              && db.messages == old(db.messages) + [asked] + answers
              && db.log == old(db.log) + [MessageCreated(asked)]
                           + seq(|answers|, i requires 0 <= i < |answers| => MessageCreated(answers[i]))
              && (search.Some? <==> failure != Some(IndexOpenFailed))
              && (search.Some? ==> search.value == VectorQuery("pdf-helper", body.fileId, body.message, SearchK))
              && (request.Some? <==> failure.None? || failure == Some(CompletionFailed))
              && (request.Some? ==> request.value == CompletionRequestFor(History(old(db.messages) + [asked], body.fileId),
                                                                          results, body.message))
  {
    search, request := None, None;
    if user.None? {
      response := Thrown(TypeError);
      return;
    }
    var userId := user.value.id;
    if !Truthy(userId) {
      response := Plain(401, "Unauthorized");
      return;
    }
    var file := FindFirstFile(db.files, ById(body.fileId, userId.value));
    if file.None? {
      response := Plain(404, "Not found");
      return;
    }
    var asked := Message(askedId, body.message, true, askedAt, userId.value, file.value.id);
    db.CreateMessage(asked);
    response, search, request := Answer(db, asked, failure, results, completion, replyId, repliedAt);
  }
}
