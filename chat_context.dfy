/** The chat context of `src/components/chat/ChatContext.tsx`: the input
    text, the loading flag, the backed-up text, and the optimistic update of
    the cached message pages around sending a message. */
module ChatContext {
  import opened Domain
  import MessageRoute

  /** A cached page of `getFileMessages`. Pages are objects: the optimistic
      update changes the messages of page 0 in place, so every holder of
      that page sees the change. */
  class Page {
    var messages: seq<MessageRow>
    var nextCursor: Option<string>

    constructor (messages: seq<MessageRow>, nextCursor: Option<string>)
      ensures this.messages == messages && this.nextCursor == nextCursor
    {
      this.messages := messages;
      this.nextCursor := nextCursor;
    }
  }

  /** The infinite-query cache entry: the pages and the cursor each was fetched with. */
  datatype InfiniteData = InfiniteData(pages: seq<Page>, pageParams: seq<Option<string>>)

  ghost predicate DistinctPages(ps: seq<Page>) {
    forall i, j :: 0 <= i < j < |ps| ==> ps[i] != ps[j]
  }

  /** `pages.flatMap(page => page.messages)`, read in the current heap. */
  function Flatten(ps: seq<Page>): seq<MessageRow>
    reads ps
  {
    if ps == [] then [] else ps[0].messages + Flatten(ps[1..])
  }

  /** Where only page 0 of distinct pages changed, the flattening is the
      new page 0 followed by the earlier flattening of the others. */
  twostate lemma FlattenAfterFirstPage(ps: seq<Page>)
    requires |ps| > 0 && DistinctPages(ps)
    requires forall j :: 1 <= j < |ps| ==> unchanged(ps[j])
    ensures Flatten(ps) == ps[0].messages + old(Flatten(ps[1..]))
  {
    assert Flatten(ps[1..]) == old(Flatten(ps[1..]));
  }

  /** The page 0 of an entry, the only object the optimistic update writes. */
  function FirstPage(cached: Option<InfiniteData>): set<Page> {
    if cached.Some? && |cached.value.pages| > 0 then {cached.value.pages[0]} else {}
  }

  /** The optimistic updater passed to `setInfiniteData`. With nothing cached
      it yields an empty entry; with an entry that has no page the access to
      page 0 throws; otherwise it prepends `row` to page 0 in place and yields
      an entry with the same pages and page parameters. */
  method Updater(cached: Option<InfiniteData>, row: MessageRow) returns (r: Result<InfiniteData, Exception>)
    modifies FirstPage(cached)
    ensures cached.None? ==> r == Ok(InfiniteData([], []))
    ensures cached.Some? && |cached.value.pages| == 0 ==> r == Err(TypeError)
    ensures cached.Some? && |cached.value.pages| > 0 ==>
              && r == Ok(cached.value)
              && cached.value.pages[0].messages == [row] + old(cached.value.pages[0].messages)
              && cached.value.pages[0].nextCursor == old(cached.value.pages[0].nextCursor)
  {
    if cached.None? {
      return Ok(InfiniteData([], []));
    }
    var newPages := cached.value.pages;
    if |newPages| == 0 {
      return Err(TypeError);
    }
    var latestPage := newPages[0];
    latestPage.messages := [row] + latestPage.messages;
    newPages := newPages[0 := latestPage];
    assert newPages == cached.value.pages;
    r := Ok(cached.value.(pages := newPages));
  }

  /** What `onMutate` hands to `onError`. */
  datatype MutateContext = MutateContext(previousMessages: seq<MessageRow>)

  /** `mutationFn`: the request fails when the response status is not ok. */
  function MutationOutcome(responseOk: bool): (r: Result<bool, string>)
    ensures r.Err? <==> !responseOk
    ensures r.Err? ==> r.error == "Failed to send message"
  {
    if !responseOk then Err("Failed to send message") else Ok(true)
  }

  /** The state of one chat: `infinite` is the cache entry for input
      `{fileId, limit}`, `unkeyed` the infinite entry read without an input,
      `plain` the entry for input `{fileId}` and `invalidated` whether the
      file's message queries were marked stale. */
  class ChatState {
    const fileId: string
    const limit: nat
    var message: string
    var isLoading: bool
    var backupMessage: string
    var infinite: Option<InfiniteData>
    var unkeyed: Option<InfiniteData>
    var plain: Option<seq<MessageRow>>
    var invalidated: bool

    constructor (fileId: string, limit: nat, infinite: Option<InfiniteData>, unkeyed: Option<InfiniteData>)
      ensures this.fileId == fileId && this.limit == limit
      ensures message == "" && !isLoading && backupMessage == ""
      ensures this.infinite == infinite && this.unkeyed == unkeyed
      ensures plain.None? && !invalidated
    {
      this.fileId, this.limit := fileId, limit;
      message, isLoading, backupMessage := "", false, "";
      this.infinite, this.unkeyed := infinite, unkeyed;
      plain, invalidated := None, false;
    }

    /** `handleInputChange`. */
    method HandleInputChange(value: string)
      modifies this
      ensures message == value
      ensures isLoading == old(isLoading) && backupMessage == old(backupMessage)
      ensures infinite == old(infinite) && unkeyed == old(unkeyed)
      ensures plain == old(plain) && invalidated == old(invalidated)
    {
      message := value;
    }

    /** `setInfiniteData({fileId, limit}, updater)`: the entry becomes what
        the updater yields, unless the updater throws. */
    method SetInfiniteData(row: MessageRow) returns (thrown: Option<Exception>)
      modifies this, FirstPage(infinite)
      ensures message == old(message) && backupMessage == old(backupMessage) && isLoading == old(isLoading)
      ensures plain == old(plain) && invalidated == old(invalidated) && unkeyed == old(unkeyed)
      ensures old(infinite).None? ==> thrown.None? && infinite == Some(InfiniteData([], []))
      ensures old(infinite).Some? && |old(infinite).value.pages| == 0 ==>
                thrown == Some(TypeError) && infinite == old(infinite)
      ensures old(infinite).Some? && |old(infinite).value.pages| > 0 ==>
                && thrown.None? && infinite == old(infinite)
                && infinite.value.pages[0].messages == [row] + old(infinite.value.pages[0].messages)
                && infinite.value.pages[0].nextCursor == old(infinite.value.pages[0].nextCursor)
    {
      var updated := Updater(infinite, row);
      if updated.Err? {
        return Some(updated.error);
      }
      infinite := Some(updated.value);
      thrown := None;
    }

    /** `onMutate` for the text `text`; `newId` and `now` are the id and time
        given to the optimistic row. The text is backed up and the input
        cleared before the cache is touched, so both hold even when the
        updater throws; the loading flag is raised only after a successful
        update; the snapshot is flattened only after the update has run. */
    method OnMutate(text: string, newId: string, now: int) returns (r: Result<MutateContext, Exception>)
      modifies this, FirstPage(infinite)
      ensures backupMessage == text && message == ""
      ensures plain == old(plain) && invalidated == old(invalidated) && unkeyed == old(unkeyed)
      ensures old(infinite).None? ==>
                r.Ok? && infinite == Some(InfiniteData([], [])) && isLoading
      ensures old(infinite).Some? && |old(infinite).value.pages| == 0 ==>
                r == Err(TypeError) && infinite == old(infinite) && isLoading == old(isLoading)
      ensures old(infinite).Some? && |old(infinite).value.pages| > 0 ==>
                && r.Ok? && infinite == old(infinite) && isLoading
                && infinite.value.pages[0].messages
                   == [MessageRow(newId, true, now, text)] + old(infinite.value.pages[0].messages)
                && infinite.value.pages[0].nextCursor == old(infinite.value.pages[0].nextCursor)
      ensures r.Ok? ==>
                r.value.previousMessages == if unkeyed.Some? then Flatten(unkeyed.value.pages) else []
      ensures r.Ok? && old(unkeyed) == old(infinite) && old(infinite).Some?
              && |old(infinite).value.pages| > 0 && DistinctPages(old(infinite).value.pages) ==>
                r.value.previousMessages
                == [MessageRow(newId, true, now, text)] + old(Flatten(infinite.value.pages))
    {
      backupMessage := text;
      message := "";
      var previous := unkeyed;
      var thrown := SetInfiniteData(MessageRow(newId, true, now, text));
      if thrown.Some? {
        return Err(thrown.value);
      }
      isLoading := true;
      if previous.Some? && previous == old(infinite) && |previous.value.pages| > 0
         && DistinctPages(previous.value.pages) {
        FlattenAfterFirstPage(previous.value.pages);
      }
      r := Ok(MutateContext(if previous.Some? then Flatten(previous.value.pages) else []));
    }

    /** `onError`: the input text comes back from the backup, and the entry
        for `{fileId}` receives the snapshot, or no messages. */
    method OnError(context: Option<MutateContext>)
      modifies this
      ensures message == old(backupMessage)
      ensures plain == Some(if context.Some? then context.value.previousMessages else [])
      ensures isLoading == old(isLoading) && backupMessage == old(backupMessage)
      ensures infinite == old(infinite) && unkeyed == old(unkeyed) && invalidated == old(invalidated)
    {
      message := backupMessage;
      plain := Some(if context.Some? then context.value.previousMessages else []);
    }

    /** `onSettled`: loading ends and the file's queries are marked stale. */
    method OnSettled()
      modifies this
      ensures !isLoading && invalidated
      ensures message == old(message) && backupMessage == old(backupMessage)
      ensures infinite == old(infinite) && unkeyed == old(unkeyed) && plain == old(plain)
    {
      isLoading := false;
      invalidated := true;
    }

    /** `addMessage`: one run of the mutation on the current text, where
        `responseOk` is whether the response status is ok. `sent` is the body
        posted to the chat route, `None` when `onMutate` throws first. */
    method AddMessage(newId: string, now: int, responseOk: bool)
      returns (sent: Option<MessageRoute.SendMessage>)
      modifies this, FirstPage(infinite)
      ensures sent.Some? <==> !(old(infinite).Some? && |old(infinite).value.pages| == 0)
      ensures sent.Some? ==> sent.value == MessageRoute.SendMessage(fileId, old(message))
      ensures !isLoading && invalidated
      ensures backupMessage == old(message)
      ensures message == if sent.Some? && responseOk then "" else old(message)
      ensures sent.None? ==> plain == Some([])
      ensures sent.Some? && responseOk ==> plain == old(plain)
      ensures unkeyed == old(unkeyed)
      ensures infinite == if old(infinite).None? then Some(InfiniteData([], [])) else old(infinite)
      ensures old(infinite).Some? && |old(infinite).value.pages| > 0 ==>
                && infinite.value.pages[0].messages
                   == [MessageRow(newId, true, now, old(message))] + old(infinite.value.pages[0].messages)
                && infinite.value.pages[0].nextCursor == old(infinite.value.pages[0].nextCursor)
      ensures sent.Some? && !responseOk ==>
                plain == Some(if unkeyed.Some? then Flatten(unkeyed.value.pages) else [])
      ensures sent.Some? && !responseOk && old(unkeyed) == old(infinite) && old(infinite).Some?
              && |old(infinite).value.pages| > 0 && DistinctPages(old(infinite).value.pages) ==>
                plain == Some([MessageRow(newId, true, now, old(message))] + old(Flatten(infinite.value.pages)))
    {
      var text := message;
      var mutated := OnMutate(text, newId, now);
      if mutated.Err? {
        sent := None;
        OnError(None);
        OnSettled();
        return;
      }
      sent := Some(MessageRoute.SendMessage(fileId, text));
      var outcome := MutationOutcome(responseOk);
      if outcome.Err? {
        OnError(Some(mutated.value));
      }
      OnSettled();
    }
  }
}
