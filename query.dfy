/** The ORM queries the handlers issue, over tables held as sequences.

    Assumptions about the ORM, stated once:
    - `findMany` without `orderBy` promises no order, so a plain filter is
      specified up to order (by multiset);
    - `orderBy: {createdAt}` is a stable sort: rows with equal timestamps
      keep their table order;
    - a `cursor` is inclusive: the result starts AT the row with that id
      among the filtered, ordered rows; when no such row exists the result
      is empty;
    - `take: n` keeps the first `n` rows from there on. */
module Query {
  import opened Domain

  // ---------------------------------------------------------------- files

  /** The `where` clauses the file table is searched with. */
  datatype FileWhere = ById(id: string, userId: string) | ByKey(key: string, userId: string)

  predicate Matches(f: File, w: FileWhere) {
    match w
    case ById(id, owner) => f.id == id && f.userId == owner
    case ByKey(key, owner) => f.key == key && f.userId == owner
  }

  /** `findFirst({where: w})` on the file table. */
  function FindFirstFile(files: seq<File>, w: FileWhere): (r: Option<File>)
    ensures r.Some? <==> exists i :: 0 <= i < |files| && Matches(files[i], w)
    ensures r.Some? ==> r.value in files && Matches(r.value, w)
  {
    if files == [] then None
    else if Matches(files[0], w) then Some(files[0])
    else
      var r := FindFirstFile(files[1..], w);
      assert forall i :: 1 <= i < |files| ==> files[i] == files[1..][i - 1];
      r
  }

  /** No two rows of the file table share an id (the primary key). */
  predicate FileIdsUnique(files: seq<File>) {
    forall i, j :: 0 <= i < j < |files| ==> files[i].id != files[j].id
  }

  // ---------------------------------------------------------------- users

  /** `findFirst({where: {userId}})` on the user table. */
  function FindUser(users: seq<User>, userId: string): (r: Option<User>)
    ensures r.Some? <==> exists i :: 0 <= i < |users| && users[i].userId == userId
    ensures r.Some? ==> r.value in users && r.value.userId == userId
  {
    if users == [] then None
    else if users[0].userId == userId then Some(users[0])
    else
      var r := FindUser(users[1..], userId);
      assert forall i :: 1 <= i < |users| ==> users[i] == users[1..][i - 1];
      r
  }

  // ------------------------------------------------------------- messages

  /** No two rows of the message table share an id. */
  predicate IdsUnique(ms: seq<Message>) {
    forall i, j :: 0 <= i < j < |ms| ==> ms[i].id != ms[j].id
  }

  /** `where: {fileId}` on the message table. */
  function FileMessages(ms: seq<Message>, fileId: string): seq<Message> {
    if ms == [] then []
    else (if ms[0].fileId == fileId then [ms[0]] else []) + FileMessages(ms[1..], fileId)
  }

  /** The filter keeps every message of the file as often as the table has
      it, and nothing else. */
  lemma {:induction false} FileMessagesCount(ms: seq<Message>, fileId: string)
    ensures forall m :: multiset(FileMessages(ms, fileId))[m]
                        == if m.fileId == fileId then multiset(ms)[m] else 0
  {
    if ms != [] {
      FileMessagesCount(ms[1..], fileId);
      assert ms == [ms[0]] + ms[1..];
    }
  }

  lemma {:induction false} FileMessagesIdsUnique(ms: seq<Message>, fileId: string)
    requires IdsUnique(ms)
    ensures IdsUnique(FileMessages(ms, fileId))
  {
    if ms != [] {
      var rest := FileMessages(ms[1..], fileId);
      FileMessagesIdsUnique(ms[1..], fileId);
      if ms[0].fileId == fileId {
        FileMessagesCount(ms[1..], fileId);
        forall m | m in rest ensures m.id != ms[0].id {
          assert multiset(rest)[m] > 0;
          assert m in ms[1..];
        }
        assert FileMessages(ms, fileId) == [ms[0]] + rest;
      }
    }
  }

  datatype Direction = Asc | Desc

  /** `a` may come before `b` under `orderBy: {createdAt: d}`. */
  predicate InOrder(a: Message, b: Message, d: Direction) {
    if d == Asc then a.createdAt <= b.createdAt else a.createdAt >= b.createdAt
  }

  predicate Sorted(s: seq<Message>, d: Direction) {
    forall i, j :: 0 <= i < j < |s| ==> InOrder(s[i], s[j], d)
  }

  /** Inserts `m` before the first row it may precede, so that rows with
      equal timestamps stay in the order they were inserted in. */
  function Insert(m: Message, s: seq<Message>, d: Direction): seq<Message> {
    if s == [] then [m]
    else if InOrder(m, s[0], d) then [m] + s
    else [s[0]] + Insert(m, s[1..], d)
  }

  /** Inserting adds exactly `m`. */
  lemma {:induction false} InsertPerm(m: Message, s: seq<Message>, d: Direction)
    ensures multiset(Insert(m, s, d)) == multiset(s) + multiset{m}
  {
    if s != [] && !InOrder(m, s[0], d) {
      InsertPerm(m, s[1..], d);
      assert s == [s[0]] + s[1..];
    }
  }

  /** Inserting into a sorted list keeps it sorted. */
  lemma {:induction false} InsertSorted(m: Message, s: seq<Message>, d: Direction)
    requires Sorted(s, d)
    ensures Sorted(Insert(m, s, d), d)
  {
    if s != [] && !InOrder(m, s[0], d) {
      assert Sorted(s[1..], d) by {
        forall i, j | 0 <= i < j < |s| - 1 ensures InOrder(s[1..][i], s[1..][j], d) {
          assert s[1..][i] == s[i + 1] && s[1..][j] == s[j + 1];
        }
      }
      InsertSorted(m, s[1..], d);
      InsertPerm(m, s[1..], d);
      InsertStep(m, s, Insert(m, s[1..], d), d);
    }
  }

  /** The recursive case of `Insert`: the head of `s` may precede `m` and
      every row of `s`. */
  lemma InsertStep(m: Message, s: seq<Message>, rest: seq<Message>, d: Direction)
    requires |s| > 0 && Sorted(s, d) && !InOrder(m, s[0], d)
    requires Sorted(rest, d) && multiset(rest) == multiset(s[1..]) + multiset{m}
    ensures Sorted([s[0]] + rest, d)
  {
    forall j | 0 <= j < |rest| ensures InOrder(s[0], rest[j], d) {
      assert rest[j] in multiset(rest);
      if rest[j] != m {
        assert rest[j] in s[1..];
        var k :| 0 <= k < |s[1..]| && s[1..][k] == rest[j];
        assert s[k + 1] == rest[j];
      }
    }
    var r := [s[0]] + rest;
    forall i, j | 0 <= i < j < |r| ensures InOrder(r[i], r[j], d) {
      if i > 0 {
        assert r[i] == rest[i - 1] && r[j] == rest[j - 1];
      }
    }
  }

  /** `orderBy: {createdAt: d}`: insertion sort, which is stable. */
  function SortBy(s: seq<Message>, d: Direction): seq<Message> {
    if s == [] then [] else Insert(s[0], SortBy(s[1..], d), d)
  }

  /** Sorting permutes its input. */
  lemma {:induction false} SortByPerm(s: seq<Message>, d: Direction)
    ensures multiset(SortBy(s, d)) == multiset(s)
  {
    if s != [] {
      SortByPerm(s[1..], d);
      InsertPerm(s[0], SortBy(s[1..], d), d);
      assert s == [s[0]] + s[1..];
    }
  }

  /** Sorting sorts. */
  lemma {:induction false} SortBySorted(s: seq<Message>, d: Direction)
    ensures Sorted(SortBy(s, d), d)
  {
    if s != [] {
      SortBySorted(s[1..], d);
      InsertSorted(s[0], SortBy(s[1..], d), d);
    }
  }

  lemma {:induction false} InsertIdsUnique(m: Message, s: seq<Message>, d: Direction)
    requires IdsUnique(s)
    requires forall x :: x in s ==> x.id != m.id
    ensures IdsUnique(Insert(m, s, d))
  {
    if s != [] && !InOrder(m, s[0], d) {
      var rest := Insert(m, s[1..], d);
      InsertIdsUnique(m, s[1..], d);
      InsertPerm(m, s[1..], d);
      forall x | x in rest ensures x.id != s[0].id {
        assert x in multiset(rest);
        assert x in s[1..] || x == m;
      }
    }
  }

  lemma {:induction false} SortByIdsUnique(s: seq<Message>, d: Direction)
    requires IdsUnique(s)
    ensures IdsUnique(SortBy(s, d))
  {
    if s != [] {
      var rest := SortBy(s[1..], d);
      SortByIdsUnique(s[1..], d);
      SortByPerm(s[1..], d);
      forall x | x in rest ensures x.id != s[0].id {
        assert x in multiset(rest);
        assert x in s[1..];
      }
      InsertIdsUnique(s[0], rest, d);
    }
  }

  /** Position of the row whose id is `id`, or `|rows|` when there is none. */
  function IndexOfId(rows: seq<Message>, id: string): (k: nat)
    ensures k <= |rows|
    ensures k < |rows| ==> rows[k].id == id
    ensures forall j :: 0 <= j < k ==> rows[j].id != id
  {
    if rows == [] then 0
    else if rows[0].id == id then 0
    else 1 + IndexOfId(rows[1..], id)
  }

  /** The rows of file `fileId` in order `d`. */
  function Rows(ms: seq<Message>, fileId: string, d: Direction): seq<Message> {
    SortBy(FileMessages(ms, fileId), d)
  }

  /** The file's ordered rows are a sorted permutation of its messages. */
  lemma RowsOfFile(ms: seq<Message>, fileId: string, d: Direction)
    ensures var rows := Rows(ms, fileId, d);
      && Sorted(rows, d)
      && multiset(rows) == multiset(FileMessages(ms, fileId))
      && |rows| == |FileMessages(ms, fileId)|
      && forall i :: 0 <= i < |rows| ==> rows[i] in ms && rows[i].fileId == fileId
  {
    var rows := Rows(ms, fileId, d);
    SortBySorted(FileMessages(ms, fileId), d);
    SortByPerm(FileMessages(ms, fileId), d);
    FileMessagesCount(ms, fileId);
    assert |multiset(rows)| == |multiset(FileMessages(ms, fileId))|;
    forall i | 0 <= i < |rows| ensures rows[i] in ms && rows[i].fileId == fileId {
      assert rows[i] in multiset(rows);
    }
  }

  /** Where a cursor points into `rows`; past the end when its row is absent. */
  function Start(rows: seq<Message>, cursor: Option<string>): (k: nat)
    ensures k <= |rows|
  {
    if cursor.Some? then IndexOfId(rows, cursor.value) else 0
  }

  /** The rows of file `fileId` in order `d`, starting at the cursor row. */
  function Window(ms: seq<Message>, fileId: string, d: Direction, cursor: Option<string>): seq<Message>
  {
    var rows := Rows(ms, fileId, d);
    rows[Start(rows, cursor)..]
  }

  lemma {:induction false} RowsIdsUnique(ms: seq<Message>, fileId: string, d: Direction)
    requires IdsUnique(ms)
    ensures IdsUnique(Rows(ms, fileId, d))
  {
    FileMessagesIdsUnique(ms, fileId);
    SortByIdsUnique(FileMessages(ms, fileId), d);
  }

  lemma SortedSuffix(s: seq<Message>, k: nat, d: Direction)
    requires Sorted(s, d) && k <= |s|
    ensures Sorted(s[k..], d)
  {
    forall i, j | 0 <= i < j < |s| - k ensures InOrder(s[k..][i], s[k..][j], d) {
      assert s[k..][i] == s[k + i] && s[k..][j] == s[k + j];
    }
  }

  lemma SortedPrefix(s: seq<Message>, n: nat, d: Direction)
    requires Sorted(s, d) && n <= |s|
    ensures Sorted(s[..n], d)
  {
    forall i, j | 0 <= i < j < n ensures InOrder(s[..n][i], s[..n][j], d) {
      assert s[..n][i] == s[i] && s[..n][j] == s[j];
    }
  }

  /** The rows from the cursor on are sorted, belong to the file, and start
      at the cursor row. */
  lemma {:induction false} WindowRows(ms: seq<Message>, fileId: string, d: Direction, cursor: Option<string>)
    ensures var w := Window(ms, fileId, d, cursor);
      && Sorted(w, d)
      && (forall i :: 0 <= i < |w| ==> w[i] in ms && w[i].fileId == fileId)
      && (cursor.Some? && |w| > 0 ==> w[0].id == cursor.value)
  {
    var rows := Rows(ms, fileId, d);
    var start := Start(rows, cursor);
    RowsOfFile(ms, fileId, d);
    SortedSuffix(rows, start, d);
    var w := rows[start..];
    forall i | 0 <= i < |w| ensures w[i] in ms && w[i].fileId == fileId {
      assert w[i] == rows[start + i];
    }
  }

  /** `findMany({where: {fileId}, orderBy: {createdAt: d}, cursor, take})`. */
  function FindMessages(ms: seq<Message>, fileId: string, d: Direction, take: nat,
                        cursor: Option<string>): seq<Message>
  {
    var w := Window(ms, fileId, d, cursor);
    w[..Min(take, |w|)]
  }

  /** The query returns at most `take` rows of the file, sorted, starting at
      the cursor row: exactly the first rows of the window from the cursor on. */
  lemma FindMessagesRows(ms: seq<Message>, fileId: string, d: Direction, take: nat, cursor: Option<string>)
    ensures var r := FindMessages(ms, fileId, d, take, cursor);
      var w := Window(ms, fileId, d, cursor);
      && |r| <= take
      && (forall i :: 0 <= i < |r| ==> r[i] in ms && r[i].fileId == fileId)
      && Sorted(r, d)
      && (cursor.Some? && |r| > 0 ==> r[0].id == cursor.value)
      && |r| == Min(take, |w|)
      && r == w[..|r|]
  {
    var w := Window(ms, fileId, d, cursor);
    WindowRows(ms, fileId, d, cursor);
    SortedPrefix(w, Min(take, |w|), d);
  }

  /** In rows with distinct ids, each row is found at its own position. */
  lemma {:induction false} IndexOfIdAt(rows: seq<Message>, k: nat)
    requires IdsUnique(rows) && k < |rows|
    ensures IndexOfId(rows, rows[k].id) == k
  {
  }

  lemma {:induction false} StartAt(rows: seq<Message>, start: nat, k: nat)
    requires IdsUnique(rows) && start + k < |rows|
    ensures Start(rows, Some(rows[start + k].id)) == start + k
  {
    IndexOfIdAt(rows, start + k);
  }

  /** Starting a window at the id of its `k`-th row drops exactly `k` rows. */
  lemma {:induction false} WindowResume(ms: seq<Message>, fileId: string, d: Direction,
                                        cursor: Option<string>, k: nat)
    requires IdsUnique(ms)
    requires k < |Window(ms, fileId, d, cursor)|
    ensures Window(ms, fileId, d, Some(Window(ms, fileId, d, cursor)[k].id))
            == Window(ms, fileId, d, cursor)[k..]
  {
    var rows := Rows(ms, fileId, d);
    RowsIdsUnique(ms, fileId, d);
    var start := Start(rows, cursor);
    var w := rows[start..];
    assert w[k] == rows[start + k];
    StartAt(rows, start, k);
    assert rows[start + k..] == w[k..];
  }

  /** Paging: when a fetch of `limit + 1` rows comes back full, starting the
      next fetch at the last row's id resumes exactly where the first `limit`
      rows end, so no row is skipped or repeated. */
  lemma {:induction false} PagingContinues(ms: seq<Message>, fileId: string, d: Direction,
                                            limit: nat, cursor: Option<string>)
    requires IdsUnique(ms)
    requires |FindMessages(ms, fileId, d, limit + 1, cursor)| == limit + 1
    ensures var page := FindMessages(ms, fileId, d, limit + 1, cursor);
      && Window(ms, fileId, d, Some(page[limit].id)) == Window(ms, fileId, d, cursor)[limit..]
      && page[..limit] + Window(ms, fileId, d, Some(page[limit].id)) == Window(ms, fileId, d, cursor)
  {
    var w := Window(ms, fileId, d, cursor);
    var page := FindMessages(ms, fileId, d, limit + 1, cursor);
    assert page == w[..limit + 1];
    assert page[limit] == w[limit];
    WindowResume(ms, fileId, d, cursor, limit);
    assert page[..limit] == w[..limit];
    assert w[..limit] + w[limit..] == w;
  }
}
