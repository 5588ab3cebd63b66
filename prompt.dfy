/** The pure part of the chat handler in `src/app/api/message/route.ts`:
    mapping stored messages to chat roles and assembling the prompt text. */
module Prompt {
  import opened Domain

  /** A chat-completion message: `role` is "system", "user" or "assistant". */
  datatype ChatMessage = ChatMessage(role: string, content: string)

  /** The role mapping of the previous messages. */
  function FormatPrevMessages(ms: seq<Message>): (r: seq<ChatMessage>)
    ensures |r| == |ms|
    ensures forall i :: 0 <= i < |ms| ==> r[i].content == ms[i].text
    ensures forall i :: 0 <= i < |ms| ==> (r[i].role == "user" <==> ms[i].isUserMessage)
    ensures forall i :: 0 <= i < |ms| ==> (r[i].role == "assistant" <==> !ms[i].isUserMessage)
  {
    seq(|ms|, i requires 0 <= i < |ms| =>
      ChatMessage(if ms[i].isUserMessage then "user" else "assistant", ms[i].text))
  }

  /** How one formatted message is written into the prompt. */
  function RenderEntry(m: ChatMessage): string {
    if m.role == "user" then "User: " + m.content + "\n" else "Assistant: " + m.content + "\n"
  }

  function RenderEntries(ms: seq<ChatMessage>): (r: seq<string>)
    ensures |r| == |ms|
    ensures forall i :: 0 <= i < |ms| ==> r[i] == RenderEntry(ms[i])
  {
    seq(|ms|, i requires 0 <= i < |ms| => RenderEntry(ms[i]))
  }

  /** `xs.join(sep)`; an array placed in a template literal is joined with ",". */
  function Join(xs: seq<string>, sep: string): string {
    if |xs| == 0 then ""
    else if |xs| == 1 then xs[0]
    else xs[0] + sep + Join(xs[1..], sep)
  }

  /** Splits `s` at every occurrence of `c`: the reading `Join` is inverted by. */
  function Split(s: string, c: char): (r: seq<string>)
    ensures |r| > 0
  {
    if |s| == 0 then [""]
    else
      var rest := Split(s[1..], c);
      if s[0] == c then [""] + rest else [[s[0]] + rest[0]] + rest[1..]
  }

  lemma {:induction false} SplitNoSeparator(x: string, c: char)
    requires c !in x
    ensures Split(x, c) == [x]
  {
    if |x| > 0 {
      SplitNoSeparator(x[1..], c);
      assert [x[0]] + x[1..] == x;
    }
  }

  lemma {:induction false} SplitAtFirst(x: string, c: char, y: string)
    requires c !in x
    ensures Split(x + [c] + y, c) == [x] + Split(y, c)
  {
    var s := x + [c] + y;
    if |x| == 0 {
      assert s[1..] == y;
    } else {
      assert s[1..] == x[1..] + [c] + y;
      SplitAtFirst(x[1..], c, y);
      assert [x[0]] + x[1..] == x;
    }
  }

  /** Joining with a one-character separator that no part contains can be
      undone by splitting at that character. */
  lemma {:induction false} SplitJoin(xs: seq<string>, c: char)
    requires |xs| > 0
    requires forall i :: 0 <= i < |xs| ==> c !in xs[i]
    ensures Split(Join(xs, [c]), c) == xs
  {
    if |xs| == 1 {
      SplitNoSeparator(xs[0], c);
    } else {
      SplitJoin(xs[1..], c);
      SplitAtFirst(xs[0], c, Join(xs[1..], [c]));
      assert xs == [xs[0]] + xs[1..];
    }
  }

  /** The `PREVIOUS CONVERSATION` block. */
  function HistoryBlock(prev: seq<Message>): string {
    Join(RenderEntries(FormatPrevMessages(prev)), ",")
  }

  /** Each history entry is "User: " or "Assistant: " by the stored author
      flag, then the stored text and a newline, in the stored order. */
  lemma HistoryEntries(prev: seq<Message>)
    ensures var entries := RenderEntries(FormatPrevMessages(prev));
      && |entries| == |prev|
      && forall i :: 0 <= i < |prev| ==>
           entries[i] == (if prev[i].isUserMessage then "User: " else "Assistant: ") + prev[i].text + "\n"
  {
  }

  /** When no stored text has a comma, the history block splits back into
      its entries. */
  lemma HistoryBlockSplits(prev: seq<Message>)
    requires |prev| > 0
    requires forall i :: 0 <= i < |prev| ==> ',' !in prev[i].text
    ensures Split(HistoryBlock(prev), ',') == RenderEntries(FormatPrevMessages(prev))
  {
    var entries := RenderEntries(FormatPrevMessages(prev));
    HistoryEntries(prev);
    forall i | 0 <= i < |entries| ensures ',' !in entries[i] {
      var head := if prev[i].isUserMessage then "User: " else "Assistant: ";
      assert entries[i] == head + prev[i].text + "\n";
      assert ',' !in head;
    }
    SplitJoin(entries, ',');
  }

  /** The `CONTEXT` block: the retrieved page contents. */
  function ContextBlock(pages: seq<string>): string {
    Join(pages, "\n\n")
  }

  /** The literal text around the interpolated parts of the user prompt. */
  const PromptHead: string :=
    "Use the following pieces of context (or previous conversaton if needed) to answer the users question in markdown format. \nIf you don't know the answer, just say that you don't know, don't try to make up an answer.\n        \n  \n----------------\n\n  \n  PREVIOUS CONVERSATION:\n  "
  const PromptMiddle: string := "\n  \n  \n----------------\n\n  \n  CONTEXT:\n  "
  const PromptLead: string := "\n  \n  "
  const InputLabel: string := "USER INPUT: "

  const SystemPrompt: string :=
    "Use the following pieces of context (or previous conversaton if needed) to answer the users question in markdown format."

  /** The literal parts of the user prompt, in the order they appear. */
  datatype Template = Template(head: string, middle: string, lead: string, inputLabel: string)

  const PromptTemplate: Template := Template(PromptHead, PromptMiddle, PromptLead, InputLabel)

  /** A template filled with the history block, the context block and the question. */
  function Fill(t: Template, history: string, context: string, message: string): string {
    t.head + (history + (t.middle + (context + (t.lead + (t.inputLabel + message)))))
  }

  /** The user prompt sent to the model. */
  function UserPrompt(prev: seq<Message>, pages: seq<string>, message: string): string {
    Fill(PromptTemplate, HistoryBlock(prev), ContextBlock(pages), message)
  }

  /** A filled template starts with its head and ends with its label and the question. */
  lemma FillShape(t: Template, history: string, context: string, message: string)
    ensures var p := Fill(t, history, context, message);
      var tail := t.inputLabel + message;
      && |p| >= |t.head| + |tail|
      && p[..|t.head|] == t.head
      && p[|p| - |tail|..] == tail
  {
    var p := Fill(t, history, context, message);
    var tail := t.inputLabel + message;
    assert p[..|t.head|] == t.head;
    assert p[|p| - |tail|..] == tail;
  }

  /** The prompt opens with the instructions and closes with "USER INPUT: "
      and the question. */
  lemma UserPromptShape(prev: seq<Message>, pages: seq<string>, message: string)
    ensures var p := UserPrompt(prev, pages, message);
      var head, tail := PromptTemplate.head, PromptTemplate.inputLabel + message;
      && |p| >= |head| + |tail|
      && p[..|head|] == head
      && p[|p| - |tail|..] == tail
  {
    FillShape(PromptTemplate, HistoryBlock(prev), ContextBlock(pages), message);
  }

  /** The chat-completion request: both messages and the fixed settings. */
  datatype CompletionRequest =
    CompletionRequest(model: string, temperature: int, stream: bool, messages: seq<ChatMessage>)

  function CompletionRequestFor(prev: seq<Message>, pages: seq<string>, message: string): CompletionRequest {
    CompletionRequest("gpt-3.5-turbo", 0, true,
                      [ChatMessage("system", SystemPrompt), ChatMessage("user", UserPrompt(prev, pages, message))])
  }
}
