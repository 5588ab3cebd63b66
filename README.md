# pdf-helper, modelled in Dafny

pdf-helper is a web application for chatting with PDF files. A signed-in user
uploads a PDF. The upload handler records the file and indexes its pages in a
vector store, then records whether indexing succeeded. The user then asks
questions about the file. The chat route stores each question, retrieves the
most relevant pages, adds the file's six oldest messages as the previous
conversation and streams the model's answer, which it also stores. Once a
file has six messages, new turns no longer enter that history.

This project models the server side of that flow and the client's
optimistic update of the chat. It covers:

- the tRPC router: sign-up, file lookup, upload status, paged messages,
  file deletion and the choice of Stripe session;
- the upload middleware and the handler run when an upload completes;
- the chat route and the prompt it builds;
- the client chat context that sends a message;
- the two pure helpers `absoluteUrl` and `constructMetadata`.

The database is a class `Database.Db` whose three tables are sequences that
its methods replace. A ghost write log records every write, so "writes
nothing" and the order of writes can be stated. Procedures that only read
are functions, or methods that write nothing, of the table values they read.

The ORM's query semantics are modelled in module `Query` as filters, a stable
sort and slices. The assumptions behind that are stated in that module's
header:

- `findMany` without `orderBy` promises no order;
- `orderBy: {createdAt}` is a stable sort;
- a `cursor` is inclusive: it is looked up among the file's filtered, ordered
  rows, and the result starts at the row with that id there. When no such
  row exists, the result is empty. That includes a cursor naming another
  file's row;
- `take: n` keeps the first `n` rows.

JavaScript truthiness is modelled for strings. `!x` holds for an unset or
empty string. An unset value placed in a template literal prints as
`undefined`.

Results from outside the program are parameters of the model. Those are the
identity provider's session user, ids and timestamps the store generates,
what the PDF loader, the vector store and the language model return, and
environment variables.

Modules, with one file each: `Domain` (entities), `Query` (ORM queries),
`Database` (the store), `Router` (`src/trpc/index.ts`), `Upload`
(`src/app/api/uploadthing/core.ts`), `Prompt` and `MessageRoute`
(`src/app/api/message/route.ts`), `ChatContext`
(`src/components/chat/ChatContext.tsx`) and `Utils` (`src/lib/utils.ts`).

## Model

| member | source | states |
|---|---|---|
| Query.FindFirstFile | src/trpc/index.ts:97-102 | a file is found iff some row has that id (or key) and the caller's userId; the row found is such a row |
| Query.FindUser | src/trpc/index.ts:23-27 | a user is found iff some row has that userId; the row found has it |
| Query.FileMessages | src/trpc/index.ts:106-110 | the `where: {fileId}` filter; specified by `FileMessagesCount` |
| Query.FileMessagesCount | src/trpc/index.ts:106-110 | the file filter keeps every message of the file as often as the table has it, and nothing else |
| Query.Insert | src/trpc/index.ts:111-113 | one step of the `orderBy: {createdAt}` sort: a row placed after every row that does not come after it; specified by `InsertPerm` and `InsertSorted` |
| Query.InsertPerm | src/trpc/index.ts:111-113 | inserting adds exactly that row to the contents |
| Query.InsertSorted | src/trpc/index.ts:111-113 | inserting into a sorted list keeps it sorted |
| Query.InsertStep | src/trpc/index.ts:111-113 | in the recursive case of insertion, the head placed before the rest keeps the list sorted |
| Query.SortBy | src/trpc/index.ts:111-113 | `orderBy: {createdAt}` as a stable insertion sort; specified by `SortByPerm` and `SortBySorted` |
| Query.SortByPerm | src/trpc/index.ts:111-113 | `orderBy: {createdAt}` permutes its input |
| Query.SortBySorted | src/trpc/index.ts:111-113 | `orderBy: {createdAt}` gives a sorted list |
| Query.FileMessagesIdsUnique | src/trpc/index.ts:106-110 | filtering keeps ids unique |
| Query.InsertIdsUnique | src/trpc/index.ts:111-113 | inserting a row with a new id keeps ids unique |
| Query.SortByIdsUnique | src/trpc/index.ts:111-113 | sorting keeps ids unique |
| Query.IndexOfId | src/trpc/index.ts:114 | the cursor position is the first row with that id, or past the end |
| Query.Start | src/trpc/index.ts:114 | the cursor start lies within the rows |
| Query.Rows | src/trpc/index.ts:106-113 | `where: {fileId}` then `orderBy: {createdAt}`, also at src/app/api/message/route.ts:67-73; specified by `RowsOfFile` |
| Query.RowsOfFile | src/trpc/index.ts:106-113 | the file's ordered rows are sorted, are a permutation of its messages, and come from the table |
| Query.RowsIdsUnique | src/trpc/index.ts:106-113 | the file's sorted rows have unique ids |
| Query.Window | src/trpc/index.ts:106-114 | the file's ordered rows from the inclusive cursor on; specified by `WindowRows` and `WindowResume` |
| Query.WindowRows | src/trpc/index.ts:106-114 | the rows from the cursor on are sorted, belong to the file, and start at the cursor row |
| Query.FindMessages | src/trpc/index.ts:106-121 | `findMany` with where, orderBy, cursor and take, as used here and at src/app/api/message/route.ts:67-75; specified by `FindMessagesRows` and `PagingContinues` |
| Query.FindMessagesRows | src/trpc/index.ts:106-121 | at most `take` rows of the file, sorted, starting at the cursor row, and exactly the first `min(take, available)` rows from the cursor on |
| Query.IndexOfIdAt | src/trpc/index.ts:114 | with unique ids, a row's id leads back to its own position |
| Query.StartAt | src/trpc/index.ts:114 | a cursor naming the row at position start + k starts there |
| Query.WindowResume | src/trpc/index.ts:106-114 | restarting at the id of the k-th row of a window drops exactly k rows |
| Query.PagingContinues | src/trpc/index.ts:106-127 | after a full fetch of limit + 1 rows, a fetch from the last row's id resumes right after the first limit rows: nothing skipped, nothing repeated |
| Domain.Truthy | src/trpc/index.ts:17 | JavaScript truthiness of an optional string (`!x` at this line and in the other handlers): unset and "" are falsy; used by `AuthCallback`, `CreateStripeSession`, `Post`, `Middleware` and `AbsoluteUrl` |
| Domain.Interpolate | src/trpc/index.ts:179 | `${x}` in a template literal: an unset value prints as "undefined"; used by `BillingUrl` |
| Domain.Row | src/trpc/index.ts:115-120 | the `select` of one fetched row; specified by `Select` |
| Domain.Select | src/trpc/index.ts:115-120 | the projection keeps length and maps each row to its selected fields |
| Database.SetStatus | src/app/api/uploadthing/core.ts:77-93 | the file table after a status update by id; specified by `Db.UpdateFileStatus` and `Upload.SetStatusOfAppended` |
| Database.RemoveFile | src/trpc/index.ts:149-153 | the file table after a delete by id; specified by `RemoveFileKeeps`, `RemoveFileUnique`, `RemoveFileAt` and `RemoveFileAbsent` |
| Database.RemoveFileKeeps | src/trpc/index.ts:149-153 | deleting by id keeps exactly the rows with another id |
| Database.RemoveFileUnique | src/trpc/index.ts:149-153 | deleting keeps file ids unique |
| Database.RemoveFileAt | src/trpc/index.ts:149-153 | with unique ids, deleting removes exactly that one row and keeps the others in order |
| Database.RemoveFileAbsent | src/trpc/index.ts:149-153 | deleting an id no row has changes nothing |
| Database.Db.CreateUser | src/trpc/index.ts:31-36 | appends the user row and logs it; the other tables are unchanged |
| Database.Db.CreateFile | src/app/api/uploadthing/core.ts:25-33 | appends the file row and logs it; other tables unchanged |
| Database.Db.UpdateFileStatus | src/app/api/uploadthing/core.ts:77-93 | sets the status of the row with that id and logs it; reports whether such a row exists |
| Database.Db.DeleteFileById | src/trpc/index.ts:149-153 | removes the row with that id, returns it when there was one, logs the delete |
| Database.Db.CreateMessage | src/app/api/message/route.ts:35-42 | appends the message row and logs it; other tables unchanged |
| Router.SignUp | src/trpc/index.ts:23-37 | the user table after `authCallback`'s lookup and create; specified by `SignUpCount` and `SignUpIdempotent` |
| Router.CountUserAppend | src/trpc/index.ts:29-37 | appending a row adds one to its user's count and nothing to the others |
| Router.CountUserZero | src/trpc/index.ts:23-29 | no row for a user iff the lookup finds none |
| Router.SignUpCount | src/trpc/index.ts:23-39 | after sign-up the user has one row if it had none, every other count is unchanged, and earlier rows stay in place |
| Router.SignUpIdempotent | src/trpc/index.ts:23-39 | signing up the same user again, with any email, changes nothing |
| Router.AuthCallback | src/trpc/index.ts:12-40 | a null user throws; a missing id or email is UNAUTHORIZED and writes nothing; otherwise the user table becomes the sign-up of the user and one row is written only for a new user |
| Router.GetUserFiles | src/trpc/index.ts:41-49 | exactly the caller's files, each as often as stored |
| Router.GetFile | src/trpc/index.ts:50-66 | the caller's file with that key, or NOT_FOUND iff there is none |
| Router.GetFileUploadStatus | src/trpc/index.ts:67-83 | PENDING when the caller owns no file with that id; with unique ids, otherwise exactly the stored status |
| Router.LimitValid | src/trpc/index.ts:87 | the zod schema `limit: number().min(1).max(100).nullish()`; used by `GetFileMessages`, whose contract answers BAD_REQUEST when it fails |
| Router.EffectiveLimit | src/trpc/index.ts:95 | `input.limit ?? INFINITE_QUERY_LIMIT`; used by `GetFileMessages` |
| Router.CursorArg | src/trpc/index.ts:114 | an empty or absent cursor means no cursor; used by `GetFileMessages` and `NextPageResumes` |
| Router.GetFileMessages | src/trpc/index.ts:84-133 | BAD_REQUEST for a limit outside 1..100; NOT_FOUND unless the caller owns the file; otherwise the page is cut from `findMany` with limit + 1 rows as `PageOf` states |
| Router.PageOf | src/trpc/index.ts:123-132 | drops the extra row and names it as nextCursor; specified by `PageRows` |
| Router.PageRows | src/trpc/index.ts:123-132 | dropping the extra row gives at most limit rows, projections of the file's messages, newest first, and a nextCursor exactly when the extra row came back, naming it |
| Router.NextPageResumes | src/trpc/index.ts:106-132 | following nextCursor returns the rows right after the page, so pages neither overlap nor skip |
| Router.DeleteFile | src/trpc/index.ts:134-154 | NOT_FOUND and no write unless the caller owns the file; otherwise exactly that row is removed and one delete is logged |
| Router.ProTestPriceId | src/trpc/index.ts:194 | `PLANS.find(plan => plan.name === "Pro")?.price.priceIds.test`; used by `CreateStripeSession`, whose contract pins the price |
| Router.BillingUrl | src/trpc/index.ts:179 | `${NEXT_PUBLIC_SERVER_URL}/dashboard/billing`, also at lines 187-188; used by `CreateStripeSession` |
| Router.FindPlan | src/trpc/index.ts:194 | the plan found is the first plan with that name; none is found only when no plan has it |
| Router.CreateStripeSession | src/trpc/index.ts:155-206 | UNAUTHORIZED iff the user id is empty or unknown; a billing portal iff subscribed with a customer id; otherwise a subscription checkout by card with automatic address collection, of one "Pro" test price for that user, returning to the billing page |
| Upload.Middleware | src/app/api/uploadthing/core.ts:17-23 | "Unauthorized" iff there is no user or no id; otherwise the metadata carries the user's id |
| Upload.FinalStatus | src/app/api/uploadthing/core.ts:35-94 | SUCCESS iff fetching, loading and indexing all succeed; FAILED otherwise |
| Upload.SetStatusOfAppended | src/app/api/uploadthing/core.ts:77-93 | updating the status of the row just appended changes that row only |
| Upload.OnUploadComplete | src/app/api/uploadthing/core.ts:24-95 | a PROCESSING row is created, then one status update to the final status is written; a write of the pages to the new file's namespace is issued iff fetching and loading succeeded, whether or not that write then succeeds |
| Upload.StatusTimeline | src/app/api/uploadthing/core.ts:25-93 | the owner sees PENDING, PROCESSING, then SUCCESS or FAILED, each step allowed and the last terminal; any other user sees PENDING throughout |
| Prompt.FormatPrevMessages | src/app/api/message/route.ts:80-83 | role "user" iff the message is the user's and "assistant" otherwise; content, length and order kept |
| Prompt.RenderEntries | src/app/api/message/route.ts:103-106 | one rendered entry per message, in order |
| Prompt.RenderEntry | src/app/api/message/route.ts:103-106 | one formatted message as an entry; specified by `HistoryEntries` |
| Prompt.Join | src/app/api/message/route.ts:103-111 | `join` with a separator; specified by `SplitJoin` |
| Prompt.SplitNoSeparator | src/app/api/message/route.ts:103-106 | a text without the separator splits into itself |
| Prompt.SplitAtFirst | src/app/api/message/route.ts:103-106 | splitting stops at the first separator |
| Prompt.SplitJoin | src/app/api/message/route.ts:103-106 | joining with a separator character no part contains can be undone by splitting |
| Prompt.HistoryEntries | src/app/api/message/route.ts:80-106 | each history entry is "User: " or "Assistant: " by the stored flag, then the text and a newline |
| Prompt.HistoryBlock | src/app/api/message/route.ts:103-106 | the history entries joined with ","; specified by `HistoryEntries` and `HistoryBlockSplits` |
| Prompt.ContextBlock | src/app/api/message/route.ts:111 | the page contents joined with a blank line |
| Prompt.HistoryBlockSplits | src/app/api/message/route.ts:103-106 | when no text has a comma, the comma-joined history splits back into its entries |
| Prompt.Fill | src/app/api/message/route.ts:98-113 | the template literal with its three interpolations; specified by `FillShape` and `UserPromptShape` |
| Prompt.FillShape | src/app/api/message/route.ts:98-113 | a filled prompt template starts with its head and ends with its input label and the question |
| Prompt.UserPrompt | src/app/api/message/route.ts:98-113 | the user prompt: the template filled with history, context and question; specified by `UserPromptShape` |
| Prompt.UserPromptShape | src/app/api/message/route.ts:98-113 | the prompt starts with the instructions and ends with "USER INPUT: " and the question |
| Prompt.CompletionRequestFor | src/app/api/message/route.ts:86-116 | the model, temperature 0, streaming, the system prompt then the user prompt; used by `MessageRoute.Answer` |
| MessageRoute.History | src/app/api/message/route.ts:67-75 | at most six messages of the file, ascending by time |
| MessageRoute.HistoryIsPrefix | src/app/api/message/route.ts:67-75 | the history is the start of the file's messages in ascending order |
| MessageRoute.HistoryIsOldest | src/app/api/message/route.ts:67-75 | no message of the file left out of the history is older than one in it |
| MessageRoute.FileMessagesAppend | src/app/api/message/route.ts:35-42 | storing a message of the file appends it to the file's messages |
| MessageRoute.InsertBeforeLast | src/app/api/message/route.ts:71-73 | inserting a row no newer than the last row leaves the last row last |
| MessageRoute.SortAppendNewest | src/app/api/message/route.ts:71-73 | ascending sort places a row no older than all others last |
| MessageRoute.RowsAppendNewest | src/app/api/message/route.ts:35-75 | the newest stored message comes last in the file's ascending rows |
| MessageRoute.PrefixOfAppended | src/app/api/message/route.ts:74 | a row appended to n or more others is cut off by `take: n`, and kept otherwise |
| MessageRoute.NewQuestionInHistory | src/app/api/message/route.ts:35-75 | the question just stored is in the history iff the file had fewer than six messages before it |
| MessageRoute.Answer | src/app/api/message/route.ts:44-134 | after the question is stored: streaming iff no foreign call throws, otherwise rejected; the search of 4 results in the file's namespace is issued unless opening the index throws; the completion request, built from the history read after storing, is issued iff no earlier call throws; one answer is stored only when the stream completes |
| MessageRoute.Post | src/app/api/message/route.ts:12-134 | a null user throws; no id gives 401 and a file the caller does not own gives 404, with no write; otherwise the question is stored first and stays stored when a later foreign call rejects; streaming iff none does, with the search, request and answer as `Answer` states |
| ChatContext.Flatten | src/components/chat/ChatContext.tsx:113-114 | `pages.flatMap(page => page.messages)` in the current heap; specified by `FlattenAfterFirstPage` |
| ChatContext.FlattenAfterFirstPage | src/components/chat/ChatContext.tsx:88-114 | when only page 0 changed, the flattening is the new page 0 followed by the earlier flattening of the others |
| ChatContext.Updater | src/components/chat/ChatContext.tsx:76-106 | no entry gives an empty one; an entry without pages throws; otherwise page 0 gains the new row in front, in place, and the entry keeps its pages and page parameters |
| ChatContext.MutationOutcome | src/components/chat/ChatContext.tsx:51-53 | throws "Failed to send message" iff the response is not ok |
| ChatContext.ChatState.HandleInputChange | src/components/chat/ChatContext.tsx:134-136 | the input becomes the typed value; nothing else changes |
| ChatContext.ChatState.SetInfiniteData | src/components/chat/ChatContext.tsx:71-107 | the entry becomes what the updater gives, unless the updater throws; page 0 gains the row in front and keeps its nextCursor |
| ChatContext.ChatState.OnMutate | src/components/chat/ChatContext.tsx:57-116 | backup and cleared input hold even when the update throws; loading starts only after a successful update; page 0 gains the row in front and keeps its nextCursor; the entry is read before the update but flattened after it, so the snapshot contains the new row when it shares the updated pages |
| ChatContext.ChatState.OnError | src/components/chat/ChatContext.tsx:117-123 | the input is restored from the backup and the `{fileId}` entry gets the snapshot or no messages; the infinite entry is untouched |
| ChatContext.ChatState.OnSettled | src/components/chat/ChatContext.tsx:124-131 | loading ends and the file's queries are invalidated, whatever the outcome |
| ChatContext.ChatState.AddMessage | src/components/chat/ChatContext.tsx:41-139 | the body is posted only when the update did not throw; loading ends false; on failure the input is restored and the `{fileId}` entry gets the snapshot (with the new row when the pages are shared); the optimistic row stays in page 0, whose nextCursor is kept |
| Utils.PortText | src/lib/utils.ts:13 | `PORT ?? 3000`: an empty PORT is kept; used by `AbsoluteUrl` |
| Utils.AbsoluteUrl | src/lib/utils.ts:9-14 | the path on the client; "https://" + VERCEL_URL + path when that is set; else "http://localhost:" + PORT (3000 when unset, empty kept) + path |
| Utils.AbsoluteUrlShape | src/lib/utils.ts:9-14 | the path always ends the result; on the server the result starts with "https://" or "http://localhost:" |
| Utils.ConstructMetadata | src/lib/utils.ts:16-50 | omitted arguments take their defaults; openGraph repeats title and description and has one image, the given one; robots "no index, no follow" is present iff noIndex |
| Utils.DefaultMetadata | src/lib/utils.ts:16-28 | with no arguments every field is its declared default and robots is absent |
| Utils.NoIndexOnlyAddsRobots | src/lib/utils.ts:43-48 | setting noIndex adds the robots entry and changes nothing else; an omitted noIndex is false |

## Left out

- Authentication internals: the identity provider and the `privateProcedure` middleware of `src/trpc/trpc.ts` are not part of this model. The session user and the context's `userId` are inputs.
- `INFINITE_QUERY_LIMIT` lives in `src/config/infinite-query.ts`, which is not part of this model. It is the parameter `defaultLimit` (and `limit` of `ChatContext.ChatState`).
- `SendMessageValidator` of `src/lib/validators` is not part of this model. The chat route's body is taken as already parsed, and a body that fails that schema is not modelled.
- Router.GetFileMessages: the limit schema is modelled on integers only. Zod's rejection of non-numbers and its acceptance of fractional limits are not modelled.
- Router.GetFileMessages: an input error is reported before the ownership lookup, as tRPC validates input first. The relative order of the authentication middleware and input validation is not modelled.
- Upload.OnUploadComplete: the fetch, the PDF loader, the embeddings and the vector write are foreign calls. They become their outcomes in `IndexRun`. A failure of the SUCCESS status write itself, which the `catch` turns into a FAILED write, is not modelled.
- Database.Db: a write the store rejects (connection loss, constraint violation) is not modelled. Message rows of a deleted file are not modelled either, since the schema's cascade rules are not part of this model.
- Router.CreateStripeSession: the subscription lookup (`getUserSubscriptionPlan`) is the parameter `isSubscribed`. The model returns the session request instead of the URL Stripe sends back.
- MessageRoute.Post: embeddings, the similarity search and the model's stream are foreign. The search is returned as a query, its results and the completion text are parameters, and the HTTP stream itself is not modelled. `SearchK`, the index name and the namespace are stated. Which foreign call throws is the parameter `failure`. The error it throws is not modelled, only that the handler rejects.
- Handlers run one request at a time. `authCallback`'s lookup followed by its create is not atomic in the source, so two concurrent first sign-ups could both create a row. `Router.SignUpIdempotent` holds for calls in sequence only. Concurrent chat requests are not modelled either.
- ChatContext: React state updates are applied at once. Batching and re-rendering are not modelled, nor is the `cancel` of outgoing queries. In the source it aborts any `getFileMessages` fetch still in flight, such as the refetch an earlier `onSettled` invalidation starts. The model has no fetch in flight, so it has nothing to abort. The toast hook is unused in the source and is left out.
- ChatContext.ChatState.AddMessage: the send is one atomic step. In the source the request is asynchronous, so text typed while it is in flight is overwritten when `onError` restores the backup. That interleaving is not modelled.
- ChatContext.ChatState.OnMutate: the snapshot (`getInfiniteData()` with no input) reads the field `unkeyed`. Whether that entry and the `{fileId, limit}` entry share page objects depends on tRPC's key matching, which is not modelled. Both cases are covered: the contract states what happens when they share pages.
- ChatContext: the optimistic row's `createdAt` is an ISO string in the source; here it is the integer timestamp `now`. `crypto.randomUUID()` is the parameter `newId`.
- The rollback on error does not restore the cache. Page 0 was changed in place, the snapshot is flattened after the change, and `onError` writes another cache key. The model follows the code, so it claims no exact revert. `AddMessage` states that the optimistic row remains in page 0 after a failure.
- `cn` (class-name merging) and the constants in `src/lib/routes.ts` are left out: they are presentation only.
