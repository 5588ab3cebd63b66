/** The tRPC router of `src/trpc/index.ts`.  Procedures that only read are
    functions, or methods that write nothing, of the table values they read;
    `userId` is the id the authenticated procedure puts in its context. */
module Router {
  import opened Domain
  import opened Query
  import opened Database

  // ------------------------------------------------------------ authCallback

  /** The user table after signing up `userId`: a row is added only when none
      has that `userId` yet. */
  function SignUp(users: seq<User>, userId: string, email: string): seq<User> {
    if FindUser(users, userId).Some? then users else users + [User(userId, email, None)]
  }

  function CountUser(users: seq<User>, userId: string): nat {
    if users == [] then 0
    else (if users[0].userId == userId then 1 else 0) + CountUser(users[1..], userId)
  }

  lemma {:induction false} CountUserAppend(users: seq<User>, u: User, userId: string)
    ensures CountUser(users + [u], userId)
            == CountUser(users, userId) + if u.userId == userId then 1 else 0
  {
    if users != [] {
      assert (users + [u])[1..] == users[1..] + [u];
      CountUserAppend(users[1..], u, userId);
    }
  }

  lemma {:induction false} CountUserZero(users: seq<User>, userId: string)
    ensures CountUser(users, userId) == 0 <==> FindUser(users, userId).None?
  {
    if users != [] {
      CountUserZero(users[1..], userId);
    }
  }

  /** Signing up leaves exactly one row for a user that had none, and keeps
      every row that was there, in place. */
  lemma {:induction false} SignUpCount(users: seq<User>, userId: string, email: string, other: string)
    ensures var after := SignUp(users, userId, email);
      && CountUser(after, other)
         == (if other == userId && CountUser(users, userId) == 0 then 1 else CountUser(users, other))
      && after[..|users|] == users
  {
    CountUserZero(users, userId);
    if FindUser(users, userId).None? {
      CountUserAppend(users, User(userId, email, None), other);
      if other == userId {
        CountUserZero(users, other);
      }
      assert (users + [User(userId, email, None)])[..|users|] == users;
    }
  }

  /** A second sign-up of the same user, with whatever email, changes nothing. */
  lemma SignUpIdempotent(users: seq<User>, userId: string, email: string, email': string)
    ensures SignUp(SignUp(users, userId, email), userId, email') == SignUp(users, userId, email)
  {
    var after := SignUp(users, userId, email);
    if FindUser(users, userId).None? {
      assert after[|users|].userId == userId;
    }
  }

  /** `authCallback`: `session` is what the identity provider returns, `None`
      standing for `null`, on which reading `user.id` throws. */
  method AuthCallback(db: Db, session: Option<SessionUser>) returns (r: Result<bool, Exception>)
    requires db.Valid()
    modifies db
    ensures db.Valid()
    ensures db.files == old(db.files) && db.messages == old(db.messages)
    ensures session.None? ==> r == Err(TypeError)
    ensures session.Some? && !(Truthy(session.value.id) && Truthy(session.value.email))
            ==> r == Err(UNAUTHORIZED)
    ensures r.Ok? <==> session.Some? && Truthy(session.value.id) && Truthy(session.value.email)
    ensures r.Err? ==> db.users == old(db.users) && db.log == old(db.log)
    ensures r.Ok? ==>
      var id, email := session.value.id.value, session.value.email.value;
      && r.value
      && db.users == SignUp(old(db.users), id, email)
      && db.log == old(db.log) + if FindUser(old(db.users), id).Some? then []
                                  else [UserCreated(User(id, email, None))]
  {
    if session.None? {
      return Err(TypeError);
    }
    var user := session.value;
    if !Truthy(user.id) || !Truthy(user.email) {
      return Err(UNAUTHORIZED);
    }
    var dbUser := FindUser(db.users, user.id.value);
    if dbUser.None? {
      db.CreateUser(User(user.id.value, user.email.value, None));
    }
    return Ok(true);
  }

  // ------------------------------------------------------------ getUserFiles

  /** `getUserFiles`: the caller's files, in no promised order. */
  function GetUserFiles(files: seq<File>, userId: string): (r: seq<File>)
    ensures forall f :: multiset(r)[f] == if f.userId == userId then multiset(files)[f] else 0
    ensures forall f :: f in r <==> f in files && f.userId == userId
  {
    if files == [] then []
    else
      assert files == [files[0]] + files[1..];
      (if files[0].userId == userId then [files[0]] else []) + GetUserFiles(files[1..], userId)
  }

  // ----------------------------------------------------------------- getFile

  /** `getFile`: the caller's file with storage key `key`. */
  function GetFile(files: seq<File>, userId: string, key: string): (r: Result<File, Exception>)
    ensures r.Ok? <==> exists i :: 0 <= i < |files| && files[i].key == key && files[i].userId == userId
    ensures r.Ok? ==> r.value in files && r.value.key == key && r.value.userId == userId
    ensures r.Err? ==> r.error == NOT_FOUND
  {
    var file := FindFirstFile(files, ByKey(key, userId));
    if file.None? then Err(NOT_FOUND) else Ok(file.value)
  }

  // ----------------------------------------------------- getFileUploadStatus

  /** `getFileUploadStatus`: a file that is missing or not the caller's reads
      as PENDING. */
  function GetFileUploadStatus(files: seq<File>, userId: string, fileId: string): (r: UploadStatus)
    ensures (forall i :: 0 <= i < |files| ==> !(files[i].id == fileId && files[i].userId == userId))
            ==> r == PENDING
    ensures FileIdsUnique(files) ==>
      forall i :: 0 <= i < |files| && files[i].id == fileId && files[i].userId == userId
        ==> r == files[i].uploadStatus
  {
    var file := FindFirstFile(files, ById(fileId, userId));
    if file.None? then PENDING else file.value.uploadStatus
  }

  // --------------------------------------------------------- getFileMessages

  datatype MessagesInput = MessagesInput(limit: Option<int>, cursor: Option<string>, fileId: string)

  datatype MessagesPage = MessagesPage(messages: seq<MessageRow>, nextCursor: Option<string>)

  /** The input schema's `limit: z.number().min(1).max(100).nullish()`. */
  predicate LimitValid(limit: Option<int>) {
    limit.Some? ==> 1 <= limit.value <= 100
  }

  /** `input.limit ?? INFINITE_QUERY_LIMIT`. */
  function EffectiveLimit(limit: Option<int>, defaultLimit: nat): nat
    requires LimitValid(limit)
  {
    if limit.Some? then limit.value else defaultLimit
  }

  /** `cursor ? {id: cursor} : undefined`: an empty cursor means none. */
  function CursorArg(cursor: Option<string>): Option<string> {
    if Truthy(cursor) then cursor else None
  }

  /** `getFileMessages`: the newest-first page of the caller's file's messages
      from the cursor on; one row more than `limit` is fetched and, when it
      comes back, dropped and its id handed out as `nextCursor`. */
  method GetFileMessages(files: seq<File>, messages: seq<Message>, userId: string,
                         input: MessagesInput, defaultLimit: nat)
    returns (r: Result<MessagesPage, Exception>)
    ensures !LimitValid(input.limit) ==> r == Err(BAD_REQUEST)
    ensures LimitValid(input.limit) && FindFirstFile(files, ById(input.fileId, userId)).None?
            ==> r == Err(NOT_FOUND)
    ensures r.Ok? <==> LimitValid(input.limit) && FindFirstFile(files, ById(input.fileId, userId)).Some?
    ensures r.Ok? ==>
      var limit := EffectiveLimit(input.limit, defaultLimit);
      PageOf(messages, input.fileId, limit,
             FindMessages(messages, input.fileId, Desc, limit + 1, CursorArg(input.cursor)), r.value)
  {
    if !LimitValid(input.limit) {
      return Err(BAD_REQUEST);
    }
    var limit := if input.limit.Some? then input.limit.value else defaultLimit;
    var file := FindFirstFile(files, ById(input.fileId, userId));
    if file.None? {
      return Err(NOT_FOUND);
    }
    var fetched := FindMessages(messages, input.fileId, Desc, limit + 1, CursorArg(input.cursor));
    FindMessagesRows(messages, input.fileId, Desc, limit + 1, CursorArg(input.cursor));
    var rows := Select(fetched);
    var nextCursor: Option<string> := None;
    if |rows| > limit {
      var nextItem := rows[|rows| - 1];
      rows := rows[..|rows| - 1];
      nextCursor := Some(nextItem.id);
    }
    PageRows(messages, input.fileId, limit, fetched, MessagesPage(rows, nextCursor));
    return Ok(MessagesPage(rows, nextCursor));
  }

  /** What a page promises about the `fetched` rows it was cut from: at most
      `limit` rows, each a projection of a message of the file, newest first,
      and a `nextCursor` exactly when a row beyond `limit` came back, naming
      that row. */
  predicate PageOf(messages: seq<Message>, fileId: string, limit: nat, fetched: seq<Message>,
                   page: MessagesPage)
  {
    var rows := page.messages;
    && |rows| <= limit
    && |rows| == Min(limit, |fetched|)
    && (forall i :: 0 <= i < |rows| ==>
          fetched[i] in messages && fetched[i].fileId == fileId && rows[i] == Row(fetched[i]))
    && (forall i, j :: 0 <= i < j < |rows| ==> rows[i].createdAt >= rows[j].createdAt)
    && (page.nextCursor.Some? <==> |fetched| == limit + 1)
    && (page.nextCursor.Some? ==> page.nextCursor.value == fetched[limit].id)
  }

  lemma PageRows(messages: seq<Message>, fileId: string, limit: nat, fetched: seq<Message>,
                 page: MessagesPage)
    requires forall i :: 0 <= i < |fetched| ==> fetched[i] in messages && fetched[i].fileId == fileId
    requires Sorted(fetched, Desc) && |fetched| <= limit + 1
    requires |page.messages| == Min(limit, |fetched|)
    requires page.messages == Select(fetched)[..|page.messages|]
    requires page.nextCursor.Some? <==> |fetched| == limit + 1
    requires page.nextCursor.Some? ==> page.nextCursor.value == fetched[limit].id
    ensures PageOf(messages, fileId, limit, fetched, page)
  {
    var rows := page.messages;
    forall i, j | 0 <= i < j < |rows| ensures rows[i].createdAt >= rows[j].createdAt {
      assert InOrder(fetched[i], fetched[j], Desc);
    }
  }

  /** Following `nextCursor` resumes right after the page just returned: the
      page's rows followed by everything from the next cursor on are exactly
      everything from the first cursor on.  This needs the store's non-empty
      message ids, since an empty cursor would restart from the newest. */
  lemma {:induction false} NextPageResumes(messages: seq<Message>, fileId: string, limit: nat,
                                           cursor: Option<string>)
    requires IdsUnique(messages)
    requires forall i :: 0 <= i < |messages| ==> messages[i].id != ""
    requires |FindMessages(messages, fileId, Desc, limit + 1, CursorArg(cursor))| == limit + 1
    ensures var fetched := FindMessages(messages, fileId, Desc, limit + 1, CursorArg(cursor));
      fetched[..limit] + Window(messages, fileId, Desc, CursorArg(Some(fetched[limit].id)))
        == Window(messages, fileId, Desc, CursorArg(cursor))
  {
    var fetched := FindMessages(messages, fileId, Desc, limit + 1, CursorArg(cursor));
    FindMessagesRows(messages, fileId, Desc, limit + 1, CursorArg(cursor));
    assert fetched[limit] in messages;
    assert CursorArg(Some(fetched[limit].id)) == Some(fetched[limit].id);
    PagingContinues(messages, fileId, Desc, limit, CursorArg(cursor));
  }

  // -------------------------------------------------------------- deleteFile

  /** `deleteFile`: the caller's file with that id is removed, nothing else. */
  method DeleteFile(db: Db, userId: string, id: string) returns (r: Result<File, Exception>)
    requires db.Valid()
    modifies db
    ensures db.Valid()
    ensures db.users == old(db.users) && db.messages == old(db.messages)
    ensures r.Err? <==> FindFirstFile(old(db.files), ById(id, userId)).None?
    ensures r.Err? ==> r.error == NOT_FOUND && db.files == old(db.files) && db.log == old(db.log)
    ensures r.Ok? ==>
      && r.value.id == id && r.value.userId == userId
      && (exists k :: 0 <= k < |old(db.files)| && old(db.files)[k] == r.value
                      && db.files == old(db.files)[..k] + old(db.files)[k + 1..])
      && db.log == old(db.log) + [FileDeleted(id)]
  {
    var file := FindFirstFile(db.files, ById(id, userId));
    if file.None? {
      return Err(NOT_FOUND);
    }
    var k :| 0 <= k < |db.files| && db.files[k] == file.value;
    RemoveFileAt(db.files, k);
    var deleted := db.DeleteFileById(id);
    return Ok(deleted.value);
  }

  // ----------------------------------------------------- createStripeSession

  datatype Plan = Plan(name: string, slug: string, quota: nat, pagesPerPdf: nat, amount: nat,
                       testPriceId: string, productionPriceId: string)

  /** The `PLANS` table of `src/config/stripe.ts`. */
  const PLANS: seq<Plan> := [
    Plan("Free", "free", 10, 5, 0, "", ""),
    Plan("Pro", "pro", 50, 25, 15, "price_1Q5PN5L6tUfIIbGGaE1X2nxk", "")
  ]

  /** `plans.find((plan) => plan.name === name)`. */
  function FindPlan(plans: seq<Plan>, name: string): (r: Option<Plan>)
    ensures r.Some? ==> exists k :: 0 <= k < |plans| && plans[k] == r.value && r.value.name == name
                                 && forall j :: 0 <= j < k ==> plans[j].name != name
    ensures r.None? ==> forall i :: 0 <= i < |plans| ==> plans[i].name != name
  {
    if plans == [] then None
    else if plans[0].name == name then Some(plans[0])
    else FindPlan(plans[1..], name)
  }

  /** `PLANS.find((plan) => plan.name === "Pro")?.price.priceIds.test`. */
  function ProTestPriceId(): Option<string> {
    var pro := FindPlan(PLANS, "Pro");
    if pro.Some? then Some(pro.value.testPriceId) else None
  }

  datatype LineItem = LineItem(price: Option<string>, quantity: nat)

  /** The session `createStripeSession` asks the payment processor for. */
  datatype StripeSession =
    | BillingPortal(customer: string, returnUrl: string)
    | Checkout(successUrl: string, cancelUrl: string, paymentMethodTypes: seq<string>, mode: string,
               billingAddressCollection: string, lineItems: seq<LineItem>, metadataUserId: string)

  /** `${process.env.NEXT_PUBLIC_SERVER_URL}/dashboard/billing`. */
  function BillingUrl(serverUrl: Option<string>): string {
    Interpolate(serverUrl) + "/dashboard/billing"
  }

  /** `createStripeSession`, up to the request it sends: `isSubscribed` is what
      the subscription lookup reports. */
  function CreateStripeSession(users: seq<User>, userId: string, isSubscribed: bool,
                               serverUrl: Option<string>): (r: Result<StripeSession, Exception>)
    ensures r.Err? <==> userId == "" || FindUser(users, userId).None?
    ensures r.Err? ==> r.error == UNAUTHORIZED
    ensures r.Ok? ==>
      var dbUser := FindUser(users, userId).value;
      && (r.value.BillingPortal? <==> isSubscribed && Truthy(dbUser.stripeCustomerId))
      && (r.value.BillingPortal? ==>
            r.value.customer == dbUser.stripeCustomerId.value && r.value.returnUrl == BillingUrl(serverUrl))
      && (r.value.Checkout? ==>
            && r.value.lineItems == [LineItem(Some("price_1Q5PN5L6tUfIIbGGaE1X2nxk"), 1)]
            && r.value.mode == "subscription"
            && r.value.paymentMethodTypes == ["card"]
            && r.value.billingAddressCollection == "auto"
            && r.value.metadataUserId == userId
            && r.value.successUrl == BillingUrl(serverUrl)
            && r.value.cancelUrl == BillingUrl(serverUrl))
  {
    if userId == "" then Err(UNAUTHORIZED)
    else
      var dbUser := FindUser(users, userId);
      if dbUser.None? then Err(UNAUTHORIZED)
      else if isSubscribed && Truthy(dbUser.value.stripeCustomerId) then
        Ok(BillingPortal(dbUser.value.stripeCustomerId.value, BillingUrl(serverUrl)))
      else
        Ok(Checkout(BillingUrl(serverUrl), BillingUrl(serverUrl), ["card"], "subscription", "auto",
                    [LineItem(ProTestPriceId(), 1)], userId))
  }
}
