/** Entities of the pdf-helper store and the few JavaScript value rules the
    handlers rely on (truthiness, template interpolation). */
module Domain {

  datatype Option<+T> = None | Some(value: T)

  datatype Result<+T, +E> = Ok(value: T) | Err(error: E)

  /** What an operation throws: the codes of the `TRPCError`s the router
      raises, or `TypeError`, the plain JavaScript exception raised when a
      property of `null` or `undefined` is read (in the router, the chat
      route and the client alike). */
  datatype Exception = UNAUTHORIZED | NOT_FOUND | BAD_REQUEST | TypeError

  /** The `UploadStatus` enum of the file table. */
  datatype UploadStatus = PENDING | PROCESSING | FAILED | SUCCESS

  /** A row of the user table.  `userId` is the identity provider's id. */
  datatype User = User(userId: string, email: string, stripeCustomerId: Option<string>)

  /** A row of the file table. */
  datatype File = File(id: string, key: string, name: string, url: string,
                       userId: string, uploadStatus: UploadStatus)

  /** A row of the message table; `createdAt` is a timestamp in milliseconds. */
  datatype Message = Message(id: string, text: string, isUserMessage: bool,
                             createdAt: int, userId: string, fileId: string)

  /** The columns `getFileMessages` selects, which are also what the client caches. */
  datatype MessageRow = MessageRow(id: string, isUserMessage: bool, createdAt: int, text: string)

  /** The session user the identity provider hands out; each field may be missing. */
  datatype SessionUser = SessionUser(id: Option<string>, email: Option<string>)

  /** JavaScript truthiness of an optional string: a missing value and "" are falsy. */
  predicate Truthy(s: Option<string>) {
    s.Some? && s.value != ""
  }

  /** `${s}` in a template literal: a missing value renders as "undefined". */
  function Interpolate(s: Option<string>): string {
    if s.Some? then s.value else "undefined"
  }

  function Row(m: Message): MessageRow {
    MessageRow(m.id, m.isUserMessage, m.createdAt, m.text)
  }

  /** The `select` projection applied to every fetched message. */
  function Select(ms: seq<Message>): (r: seq<MessageRow>)
    ensures |r| == |ms|
    ensures forall i :: 0 <= i < |ms| ==> r[i] == Row(ms[i])
  {
    seq(|ms|, i requires 0 <= i < |ms| => Row(ms[i]))
  }

  function Min(a: int, b: int): int {
    if a <= b then a else b
  }
}
