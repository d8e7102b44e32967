/**
 * The prompt sent to the model (langgraph_database_backend.py, `chat_node`
 * and `get_streaming_response`): one "User: " or "Assistant: " line per
 * human or AI message, joined by newlines; and the streamed reply, which
 * skips empty chunks.
 */
module Prompt {
  import opened Text

  /** LangChain's message kinds: human, AI, and any other kind (system, tool, …). */
  datatype Message = Human(content: string) | AI(content: string) | Other(content: string)

  const UserPrefix: string := "User: "
  const AssistantPrefix: string := "Assistant: "

  /** The prompt line a message contributes: none for kinds other than human and AI. */
  function PartOf(m: Message): seq<string> {
    match m
    case Human(c) => [UserPrefix + c]
    case AI(c) => [AssistantPrefix + c]
    case Other(_) => []
  }

  /** `prompt_parts` after the loop over `messages`. */
  function PromptParts(ms: seq<Message>): seq<string> {
    if ms == [] then [] else PromptParts(ms[..|ms| - 1]) + PartOf(ms[|ms| - 1])
  }

  /** The human and AI messages of `ms`, in order. */
  function Conversational(ms: seq<Message>): (r: seq<Message>)
    ensures forall i :: 0 <= i < |r| ==> !r[i].Other?
  {
    if ms == [] then []
    else Conversational(ms[..|ms| - 1]) + (if ms[|ms| - 1].Other? then [] else [ms[|ms| - 1]])
  }

  /** `"\n".join(parts)`. */
  function JoinLines(parts: seq<string>): string {
    if parts == [] then ""
    else if |parts| == 1 then parts[0]
    else parts[0] + "\n" + JoinLines(parts[1..])
  }

  /** `s.split("\n")`: always at least one piece. */
  function SplitLines(s: string): (r: seq<string>)
    ensures |r| >= 1
  {
    if s == [] then [""]
    else
      var rest := SplitLines(s[1..]);
      if s[0] == '\n' then [""] + rest else [[s[0]] + rest[0]] + rest[1..]
  }

  /** The prompt text of a message list. */
  function PromptOf(ms: seq<Message>): string {
    JoinLines(PromptParts(ms))
  }

  /**
   * The prompt-building loop, written out twice in the source (lines 29-36
   * and 47-54) with the same text, so both callers get the same prompt from
   * the same messages.
   */
  method BuildPrompt(messages: seq<Message>) returns (prompt: string)
    ensures prompt == PromptOf(messages)
  {
    var parts: seq<string> := [];
    var i := 0;
    while i < |messages|
      invariant 0 <= i <= |messages|
      invariant parts == PromptParts(messages[..i])
    {
      assert messages[..i + 1][..i] == messages[..i];
      var msg := messages[i];
      if msg.Human? {
        parts := parts + [UserPrefix + msg.content];
      } else if msg.AI? {
        parts := parts + [AssistantPrefix + msg.content];
      }
      i := i + 1;
    }
    assert messages[..i] == messages;
    prompt := JoinLines(parts);
  }

  // ---------------------------------------------------------------------
  // Reading a prompt back

  predicate SingleLine(s: string) {
    forall i :: 0 <= i < |s| ==> s[i] != '\n'
  }

  /** The message a prompt line stands for. */
  function ParseLine(line: string): Message {
    if |line| >= |UserPrefix| && line[..|UserPrefix|] == UserPrefix then Human(line[|UserPrefix|..])
    else if |line| >= |AssistantPrefix| && line[..|AssistantPrefix|] == AssistantPrefix then AI(line[|AssistantPrefix|..])
    else Other(line)
  }

  function ParseLines(lines: seq<string>): (r: seq<Message>)
    ensures |r| == |lines|
    ensures forall i :: 0 <= i < |lines| ==> r[i] == ParseLine(lines[i])
  {
    seq(|lines|, i requires 0 <= i < |lines| => ParseLine(lines[i]))
  }

  /** The message list a prompt encodes. */
  function ParsePrompt(prompt: string): seq<Message> {
    if prompt == "" then [] else ParseLines(SplitLines(prompt))
  }

  /** The line of a human or AI message reads back as that message. */
  lemma ParseLineOfPart(m: Message)
    requires !m.Other?
    ensures ParseLine(PartOf(m)[0]) == m
    ensures PartOf(m)[0] != ""
    ensures SingleLine(m.content) ==> SingleLine(PartOf(m)[0])
  {
    var line := PartOf(m)[0];
    var prefix := if m.Human? then UserPrefix else AssistantPrefix;
    assert line == prefix + m.content;
    assert line[..|prefix|] == prefix && line[|prefix|..] == m.content;
    assert m.AI? ==> line[..|UserPrefix|] != UserPrefix by {
      assert m.AI? ==> line[0] == 'A';
    }
    assert forall i :: |prefix| <= i < |line| ==> line[i] == m.content[i - |prefix|];
  }

  /** Each human or AI message yields one line that reads back as that message. */
  lemma {:induction false} PartsParseBack(ms: seq<Message>)
    ensures ParseLines(PromptParts(ms)) == Conversational(ms)
  {
    if ms != [] {
      var init, last := ms[..|ms| - 1], ms[|ms| - 1];
      PartsParseBack(init);
      if !last.Other? {
        ParseLineOfPart(last);
      }
      var a, b := PromptParts(init), PartOf(last);
      assert ParseLines(a + b) == ParseLines(a) + ParseLines(b);
    }
  }

  /** Every prompt line is non-empty, and newline-free when the contents are. */
  lemma {:induction false} PartsShape(ms: seq<Message>)
    ensures forall i :: 0 <= i < |PromptParts(ms)| ==> PromptParts(ms)[i] != ""
    ensures (forall k :: 0 <= k < |ms| ==> SingleLine(ms[k].content)) ==>
      forall i :: 0 <= i < |PromptParts(ms)| ==> SingleLine(PromptParts(ms)[i])
  {
    if ms != [] {
      var init, last := ms[..|ms| - 1], ms[|ms| - 1];
      assert forall k :: 0 <= k < |init| ==> init[k] == ms[k];
      PartsShape(init);
      if !last.Other? {
        ParseLineOfPart(last);
      }
      var a, b := PromptParts(init), PartOf(last);
      assert forall i :: 0 <= i < |a| ==> (a + b)[i] == a[i];
    }
  }

  /** Splitting a line that holds no newline, followed by a newline, splits it off. */
  lemma {:induction false} SplitLinesAfter(a: string, b: string)
    requires SingleLine(a)
    ensures SplitLines(a + "\n" + b) == [a] + SplitLines(b)
  {
    if a == [] {
      assert ("\n" + b)[1..] == b;
    } else {
      assert (a + "\n" + b)[1..] == a[1..] + "\n" + b;
      SplitLinesAfter(a[1..], b);
      assert [a[0]] + a[1..] == a;
    }
  }

  /** A single line is its own split. */
  lemma {:induction false} SplitLinesSingle(a: string)
    requires SingleLine(a)
    ensures SplitLines(a) == [a]
  {
    if a != [] {
      SplitLinesSingle(a[1..]);
      assert [a[0]] + a[1..] == a;
    }
  }

  /** `"\n".join` then `split("\n")` gives back one or more newline-free lines. */
  lemma {:induction false} SplitJoinLines(parts: seq<string>)
    requires |parts| >= 1
    requires forall i :: 0 <= i < |parts| ==> SingleLine(parts[i])
    ensures SplitLines(JoinLines(parts)) == parts
  {
    if |parts| == 1 {
      SplitLinesSingle(parts[0]);
    } else {
      SplitJoinLines(parts[1..]);
      SplitLinesAfter(parts[0], JoinLines(parts[1..]));
    }
  }

  lemma JoinLinesNonEmpty(parts: seq<string>)
    requires |parts| >= 1 && parts[0] != ""
    ensures JoinLines(parts) != ""
  {
  }

  /**
   * The prompt is lossless for single-line contents: reading it back gives
   * the human and AI messages, in order, with their contents; messages of
   * other kinds are skipped.
   */
  lemma PromptRoundTrip(ms: seq<Message>)
    requires forall k :: 0 <= k < |ms| ==> SingleLine(ms[k].content)
    ensures ParsePrompt(PromptOf(ms)) == Conversational(ms)
  {
    var parts := PromptParts(ms);
    PartsParseBack(ms);
    PartsShape(ms);
    if parts != [] {
      JoinLinesNonEmpty(parts);
      SplitJoinLines(parts);
    }
  }

  // ---------------------------------------------------------------------
  // The streamed reply

  /**
   * The chunks `get_streaming_response` yields (lines 59-61): only the
   * non-empty ones, so the text they make up is the model's whole text.
   */
  function StreamedChunks(texts: seq<string>): (r: seq<string>)
    ensures forall i :: 0 <= i < |r| ==> r[i] != ""
    ensures Flatten(r) == Flatten(texts)
  {
    if texts == [] then []
    else
      var rest := StreamedChunks(texts[1..]);
      if texts[0] != "" then
        assert ([texts[0]] + rest)[1..] == rest;
        [texts[0]] + rest
      else rest
  }
}
