/**
 * The per-browser-session state of streamlit_database_frontend.py
 * (`st.session_state`): the current thread, its displayed history, whether
 * it still waits for its first message, and the sidebar's thread list. Each
 * user event (a button or a chat input) is one method; the rerun the
 * source triggers after it re-executes the session setup, so lines 55-56
 * run again at its end.
 */
module Session {
  import opened Wrappers
  import opened Text
  import opened Prompt
  import opened Naming
  import opened Store
  import D = OrderedDict

  // ---------------------------------------------------------------------
  // The displayed history and the role conversions

  datatype Role = User | Assistant

  /** One `{'role': …, 'content': …}` entry of `message_history`. */
  datatype Entry = Entry(role: Role, content: string)

  /** Lines 95-99: a human message is the user's; every other kind is shown as the assistant's. */
  function EntryOf(m: Message): Entry {
    Entry(if m.Human? then User else Assistant, m.content)
  }

  function HistoryOf(ms: seq<Message>): seq<Entry> {
    seq(|ms|, i requires 0 <= i < |ms| => EntryOf(ms[i]))
  }

  /** Lines 172-175: a user entry becomes a human message, every other an AI message. */
  function MessageOf(e: Entry): Message {
    if e.role == User then Human(e.content) else AI(e.content)
  }

  function MessagesOf(h: seq<Entry>): seq<Message> {
    seq(|h|, i requires 0 <= i < |h| => MessageOf(h[i]))
  }

  /**
   * Lines 92-101: a loaded thread's messages as displayed history. Each
   * message gives one entry with its content, in order; the entry is the
   * user's exactly when the message is a human one.
   */
  method LoadedToHistory(messages: seq<Message>) returns (history: seq<Entry>)
    ensures |history| == |messages|
    ensures forall i :: 0 <= i < |messages| ==>
      history[i].content == messages[i].content && (history[i].role == User <==> messages[i].Human?)
    ensures history == HistoryOf(messages)
  {
    history := [];
    var i := 0;
    while i < |messages|
      invariant 0 <= i <= |messages|
      invariant history == HistoryOf(messages[..i])
    {
      var role := if messages[i].Human? then User else Assistant;
      history := history + [Entry(role, messages[i].content)];
      i := i + 1;
    }
    assert messages[..i] == messages;
  }

  /**
   * Lines 170-175: the displayed history as the message list sent for
   * streaming. Only human and AI messages come out, one per entry, with
   * its content; a message is human exactly when its entry is the user's.
   */
  method HistoryToMessages(history: seq<Entry>) returns (messages: seq<Message>)
    ensures |messages| == |history|
    ensures forall i :: 0 <= i < |history| ==>
      messages[i].content == history[i].content && !messages[i].Other?
      && (messages[i].Human? <==> history[i].role == User)
    ensures messages == MessagesOf(history)
  {
    messages := [];
    var i := 0;
    while i < |history|
      invariant 0 <= i <= |history|
      invariant messages == MessagesOf(history[..i])
    {
      if history[i].role == User {
        messages := messages + [Human(history[i].content)];
      } else {
        messages := messages + [AI(history[i].content)];
      }
      i := i + 1;
    }
    assert history[..i] == history;
  }

  /** Lines 167 and 178-179: the reply shown is the chunks joined in order. */
  method AccumulateReply(chunks: seq<string>) returns (full: string)
    ensures full == Flatten(chunks)
  {
    full := "";
    var i := 0;
    while i < |chunks|
      invariant 0 <= i <= |chunks|
      invariant full == Flatten(chunks[..i])
    {
      assert chunks[..i + 1] == chunks[..i] + [chunks[i]];
      FlattenSnoc(chunks[..i], chunks[i]);
      full := full + chunks[i];
      i := i + 1;
    }
    assert chunks[..i] == chunks;
  }

  /** Converting history to messages and back gives the same history. */
  lemma HistoryRoundTrip(h: seq<Entry>)
    ensures HistoryOf(MessagesOf(h)) == h
  {
    forall i | 0 <= i < |h| ensures HistoryOf(MessagesOf(h))[i] == h[i] {
      assert MessagesOf(h)[i] == MessageOf(h[i]);
    }
  }

  /** A thread of human and AI messages survives loading and sending back unchanged. */
  lemma MessagesRoundTrip(ms: seq<Message>)
    requires forall i :: 0 <= i < |ms| ==> !ms[i].Other?
    ensures MessagesOf(HistoryOf(ms)) == ms
  {
    forall i | 0 <= i < |ms| ensures MessagesOf(HistoryOf(ms))[i] == ms[i] {
      assert HistoryOf(ms)[i] == EntryOf(ms[i]);
    }
  }

  /** A message of another kind comes back as an AI message: the conversion forgets the kind. */
  lemma OtherComesBackAsAI(c: string)
    ensures MessagesOf(HistoryOf([Other(c)])) == [AI(c)]
  {
    assert HistoryOf([Other(c)]) == [Entry(Assistant, c)];
  }

  /**
   * The displayed history follows a stored thread: the same number of
   * entries, the user's entries at the thread's human messages, with the
   * same text. Assistant texts can differ, since the reply shown and the
   * reply stored come from two separate model calls.
   */
  predicate Mirrors(h: seq<Entry>, ms: seq<Message>) {
    |h| == |ms|
    && forall i :: 0 <= i < |h| ==>
      (h[i].role == User <==> ms[i].Human?) && (ms[i].Human? ==> h[i].content == ms[i].content)
  }

  lemma MirrorsLoaded(ms: seq<Message>)
    ensures Mirrors(HistoryOf(ms), ms)
  {
  }

  /** A turn appended to both sides keeps them in step. */
  lemma MirrorsTurn(h: seq<Entry>, ms: seq<Message>, userInput: string, shown: string, stored: string)
    requires Mirrors(h, ms)
    ensures Mirrors(h + [Entry(User, userInput), Entry(Assistant, shown)], ms + [Human(userInput), AI(stored)])
  {
    var h', ms' := h + [Entry(User, userInput), Entry(Assistant, shown)], ms + [Human(userInput), AI(stored)];
    forall i | 0 <= i < |h'|
      ensures (h'[i].role == User <==> ms'[i].Human?) && (ms'[i].Human? ==> h'[i].content == ms'[i].content)
    {
      if i < |h| {
        assert h'[i] == h[i] && ms'[i] == ms[i];
      }
    }
  }

  /**
   * When the displayed history is exactly the loaded form of the stored
   * thread (no other kinds in it), the streaming prompt and the prompt the
   * graph sends are the same text.
   */
  lemma PromptsAgree(ms: seq<Message>, userInput: string)
    requires forall i :: 0 <= i < |ms| ==> !ms[i].Other?
    ensures PromptOf(MessagesOf(HistoryOf(ms) + [Entry(User, userInput)])) == PromptOf(ms + [Human(userInput)])
  {
    MessagesRoundTrip(ms);
    var h := HistoryOf(ms);
    assert MessagesOf(h + [Entry(User, userInput)]) == MessagesOf(h) + [Human(userInput)];
  }

  // ---------------------------------------------------------------------
  // The sidebar (lines 69-85)

  const Untitled: string := "New Chat"
  const CurrentMarker: string := "\U{25B6} "

  /** One conversation button: its key, its label, and whether it is the highlighted one. */
  datatype Button = Button(threadId: string, caption: string, primary: bool)

  /** Line 73: the saved name, or "New Chat" when there is none or it is empty. */
  function DisplayName(name: Option<string>): (r: string)
    ensures r != ""
    ensures name.Some? && name.value != "" ==> r == name.value
    ensures name == None || name == Some("") ==> r == Untitled
  {
    if name.Some? && name.value != "" then name.value else Untitled
  }

  function ButtonFor(entry: (string, Option<string>), current: string): Button {
    if entry.0 == current then Button(entry.0, CurrentMarker + DisplayName(entry.1), true)
    else Button(entry.0, DisplayName(entry.1), false)
  }

  /** The buttons, the thread list read from its last entry to its first. */
  function Sidebar(threads: D.Dict<string, Option<string>>, current: string): seq<Button> {
    seq(|threads|, i requires 0 <= i < |threads| => ButtonFor(threads[|threads| - 1 - i], current))
  }

  /** One button per listed thread, the last-inserted first, each showing its entry. */
  lemma SidebarShape(threads: D.Dict<string, Option<string>>, current: string)
    ensures |Sidebar(threads, current)| == |threads|
    ensures forall i :: 0 <= i < |threads| ==> ShowsEntry(Sidebar(threads, current)[i], threads[|threads| - 1 - i], current)
  {
    var r := Sidebar(threads, current);
    forall i | 0 <= i < |threads| ensures ShowsEntry(r[i], threads[|threads| - 1 - i], current) {
      var e := threads[|threads| - 1 - i];
      assert r[i] == ButtonFor(e, current);
      assert "" + DisplayName(e.1) == DisplayName(e.1);
    }
  }

  /**
   * A button shows a list entry: it carries the entry's id, it is
   * highlighted and marked exactly when that id is the current one, and its
   * caption is the saved name, or "New Chat" when there is none or it is empty.
   */
  predicate ShowsEntry(b: Button, e: (string, Option<string>), current: string) {
    && b.threadId == e.0
    && (b.primary <==> e.0 == current)
    && b.caption == (if b.primary then CurrentMarker else "") + DisplayName(e.1)
  }

  /** In a duplicate-free list holding the current thread, exactly one button is highlighted. */
  lemma {:induction false} OnePrimary(threads: D.Dict<string, Option<string>>, current: string)
    requires D.Distinct(threads) && current in D.Keys(threads)
    ensures exists i :: 0 <= i < |threads| && Sidebar(threads, current)[i].primary
    ensures forall i, j ::
      (0 <= i < |threads| && 0 <= j < |threads| &&
       Sidebar(threads, current)[i].primary && Sidebar(threads, current)[j].primary) ==> i == j
  {
    var r := Sidebar(threads, current);
    var n := |threads|;
    var k :| 0 <= k < n && threads[k].0 == current;
    assert r[n - 1 - k] == ButtonFor(threads[n - 1 - (n - 1 - k)], current);
    forall i, j | 0 <= i < n && 0 <= j < n && r[i].primary && r[j].primary ensures i == j {
      var a, b := n - 1 - i, n - 1 - j;
      assert r[i] == ButtonFor(threads[a], current) && r[j] == ButtonFor(threads[b], current);
    }
  }

  /** A thread added to the list gets the top button; the others move down one. */
  lemma SidebarNewestFirst(threads: D.Dict<string, Option<string>>, id: string, name: Option<string>, current: string)
    ensures Sidebar(threads + [(id, name)], current) == [ButtonFor((id, name), current)] + Sidebar(threads, current)
  {
    var t' := threads + [(id, name)];
    var l, r := Sidebar(t', current), [ButtonFor((id, name), current)] + Sidebar(threads, current);
    forall i | 0 <= i < |l| ensures l[i] == r[i] {
      if i > 0 {
        assert t'[|t'| - 1 - i] == threads[|threads| - 1 - (i - 1)];
      }
    }
  }

  // ---------------------------------------------------------------------
  // The thread list against the database

  /** Every listed name is the one `conversation_names` holds for that id (None when it holds none). */
  predicate Agrees(threads: D.Dict<string, Option<string>>, names: map<string, string>) {
    forall i :: 0 <= i < |threads| ==> threads[i].1 == MapGet(names, threads[i].0)
  }

  /** Naming a listed thread in both the list and the table keeps them in agreement. */
  lemma AgreesRename(threads: D.Dict<string, Option<string>>, names: map<string, string>, id: string, name: string)
    requires D.Distinct(threads) && id in D.Keys(threads) && Agrees(threads, names)
    ensures Agrees(D.Set(threads, id, Some(name)), names[id := name])
    ensures D.Distinct(D.Set(threads, id, Some(name)))
    ensures D.Keys(D.Set(threads, id, Some(name))) == D.Keys(threads)
  {
    var k :| 0 <= k < |threads| && threads[k].0 == id;
    D.SetPresentInPlace(threads, id, Some(name), k);
    D.SetDistinct(threads, id, Some(name));
    var r := threads[k := (id, Some(name))];
    forall i | 0 <= i < |r| ensures r[i].1 == MapGet(names[id := name], r[i].0) {
      if i != k {
        assert threads[i].0 != id;
      }
    }
  }

  /** Dropping a thread from both the list and the table keeps them in agreement. */
  lemma {:induction false} AgreesRemove(threads: D.Dict<string, Option<string>>, names: map<string, string>, id: string)
    requires D.Distinct(threads) && Agrees(threads, names)
    ensures Agrees(D.Remove(threads, id), names - {id})
  {
    D.RemoveKeys(threads, id);
    D.RemoveEntries(threads, id);
    var r := D.Remove(threads, id);
    forall i | 0 <= i < |r| ensures r[i].1 == MapGet(names - {id}, r[i].0) {
      assert r[i].0 in D.Keys(r);
      var j :| 0 <= j < |threads| && threads[j] == r[i];
    }
  }

  // ---------------------------------------------------------------------
  // The session

  class ChatSession {
    /** The backend this session talks to. */
    const store: ConversationStore
    /** `st.session_state['thread_id']`. */
    var threadId: string
    /** `st.session_state['message_history']`. */
    var history: seq<Entry>
    /** `st.session_state['is_new_conversation']`. */
    var isNew: bool
    /** `st.session_state['chat_threads']`: thread id to saved name, in insertion order. */
    var chatThreads: D.Dict<string, Option<string>>

    /**
     * What every event leaves in place: no thread listed twice; the
     * current thread listed; listed names as the database has them; every
     * thread with stored messages listed; a conversation waiting for its
     * first message has no history and no saved name; and the displayed
     * history follows the current thread's stored messages.
     */
    predicate Valid()
      reads this, store
    {
      && D.Distinct(chatThreads)
      && threadId in D.Keys(chatThreads)
      && Agrees(chatThreads, store.names)
      && ThreadIds(store.checkpoints) <= D.Keys(chatThreads)
      && (isNew ==> history == [] && threadId !in store.names)
      && Mirrors(history, LatestMessages(store.checkpoints, threadId))
    }

    /** A new thread id (`uuid.uuid4()`) matches no listed thread and no saved name. */
    predicate Fresh(id: string)
      reads this, store
    {
      id !in D.Keys(chatThreads) && id !in store.names
    }

    /**
     * A first script run (lines 43-56): empty history, a new thread, the
     * database's thread list with the new thread appended.
     */
    constructor Start(s: ConversationStore, freshId: string)
      requires freshId !in s.names && freshId !in ThreadIds(s.checkpoints)
      ensures Valid()
      ensures store == s && threadId == freshId && history == [] && isNew
      ensures chatThreads == Listing(s.checkpoints, s.names) + [(freshId, None)]
    {
      var all := s.RetrieveAllThreads();
      store := s;
      history := [];
      threadId := freshId;
      chatThreads := all;
      isNew := true;
      new;
      EnsureCurrentListed();
      LatestOfUnknown(s.checkpoints, freshId);
    }

    /** `reset_chat` (lines 26-30): a new thread, an empty history, waiting for its first message. */
    method ResetChat(freshId: string)
      modifies this
      ensures threadId == freshId && history == [] && isNew
      ensures chatThreads == old(chatThreads)
    {
      threadId := freshId;
      history := [];
      isNew := true;
    }

    /** `add_thread` (lines 32-34): list the id with the name unless it is listed already. */
    method AddThread(id: string, name: Option<string>)
      modifies this
      ensures chatThreads == D.AddIfAbsent(old(chatThreads), id, name)
      ensures threadId == old(threadId) && history == old(history) && isNew == old(isNew)
    {
      if id !in D.Keys(chatThreads) {
        chatThreads := chatThreads + [(id, name)];
      }
    }

    /** Lines 55-56, run at the start of every script run: list the current thread, unnamed. */
    method EnsureCurrentListed()
      modifies this
      ensures chatThreads == D.AddIfAbsent(old(chatThreads), threadId, None)
      ensures threadId == old(threadId) && history == old(history) && isNew == old(isNew)
    {
      if threadId !in D.Keys(chatThreads) {
        AddThread(threadId, None);
      }
    }

    /** The "New Chat" button (lines 63-65), then the rerun: the new thread goes to the end of the list. */
    method NewChat(freshId: string)
      requires Valid() && Fresh(freshId)
      modifies this
      ensures Valid()
      ensures threadId == freshId && history == [] && isNew
      ensures chatThreads == old(chatThreads) + [(freshId, None)]
    {
      ResetChat(freshId);
      EnsureCurrentListed();
      assert freshId !in ThreadIds(store.checkpoints);
      LatestOfUnknown(store.checkpoints, freshId);
    }

    /**
     * A conversation button (lines 87-102): make it current, no longer
     * waiting for a first message, and show its newest stored messages.
     */
    method SelectThread(id: string)
      requires Valid() && id in D.Keys(chatThreads)
      modifies this
      ensures Valid()
      ensures threadId == id && !isNew
      ensures history == HistoryOf(LatestMessages(store.checkpoints, id))
      ensures chatThreads == old(chatThreads)
    {
      threadId := id;
      isNew := false;
      var messages := LatestMessages(store.checkpoints, id);
      history := LoadedToHistory(messages);
      MirrorsLoaded(messages);
    }

    /**
     * A delete button (lines 106-115), then the rerun: the thread leaves
     * the database and the list; deleting the current thread starts a new
     * one, which the rerun appends to the list.
     */
    method DeleteThread(id: string, freshId: string)
      requires Valid() && id in D.Keys(chatThreads)
      requires id == threadId ==> Fresh(freshId)
      modifies this, store
      ensures Valid()
      ensures store.names == old(store.names) - {id}
      ensures store.checkpoints == WithoutThread(old(store.checkpoints), id)
      ensures id !in D.Keys(chatThreads)
      ensures id != old(threadId) ==>
        && chatThreads == D.Remove(old(chatThreads), id)
        && threadId == old(threadId) && history == old(history) && isNew == old(isNew)
      ensures id == old(threadId) ==>
        && chatThreads == D.Remove(old(chatThreads), id) + [(freshId, None)]
        && threadId == freshId && history == [] && isNew
    {
      ghost var oldThreads, oldLog := chatThreads, store.checkpoints;
      var ok := store.DeleteConversation(id);
      AgreesRemove(chatThreads, old(store.names), id);
      D.RemoveKeys(chatThreads, id);
      WithoutThreadIds(oldLog, id);
      chatThreads := D.Remove(chatThreads, id);
      if id == threadId {
        ResetChat(freshId);
        LatestOfUnknown(store.checkpoints, freshId);
      } else {
        WithoutThreadOthers(oldLog, id, threadId);
      }
      EnsureCurrentListed();
    }

    /**
     * A chat input (lines 140-191). An empty input does nothing. Otherwise
     * the user's entry is shown; a conversation waiting for its first
     * message is named from it, in the database and in the list; the
     * history goes to the model as `streamPrompt`, whose streamed text
     * (`modelChunks`, empty chunks dropped) is shown as the reply; and the
     * user's message goes through the graph, which stores it with the
     * graph's own reply `storedReply`, sent `storedPrompt`.
     */
    method SubmitTurn(userInput: string, modelChunks: seq<string>, storedReply: string)
      returns (streamPrompt: string, storedPrompt: string, reply: string)
      requires Valid()
      modifies this, store
      ensures Valid()
      ensures userInput == "" ==> unchanged(this, store)
      ensures userInput != "" ==>
        && reply == Flatten(modelChunks)
        && streamPrompt == PromptOf(MessagesOf(old(history) + [Entry(User, userInput)]))
        && storedPrompt == PromptOf(LatestMessages(old(store.checkpoints), old(threadId)) + [Human(userInput)])
        && threadId == old(threadId) && !isNew
        && history == old(history) + [Entry(User, userInput), Entry(Assistant, reply)]
        && store.checkpoints == [Checkpoint(threadId,
             LatestMessages(old(store.checkpoints), threadId) + [Human(userInput), AI(storedReply)])]
           + old(store.checkpoints)
      ensures userInput != "" && old(isNew) ==>
        && chatThreads == D.Set(old(chatThreads), threadId, Some(GenerateConversationName(userInput)))
        && store.names == old(store.names)[threadId := GenerateConversationName(userInput)]
      ensures userInput != "" && !old(isNew) ==>
        chatThreads == old(chatThreads) && store.names == old(store.names)
    {
      if userInput == "" {
        return "", "", "";
      }
      ghost var shown := history;
      history := history + [Entry(User, userInput)];
      NameIfNew(userInput);
      var allMessages := HistoryToMessages(history);
      streamPrompt := BuildPrompt(allMessages);
      var chunks := StreamedChunks(modelChunks);
      reply := AccumulateReply(chunks);
      history := history + [Entry(Assistant, reply)];
      assert history == shown + [Entry(User, userInput), Entry(Assistant, reply)];
      ghost var log := store.checkpoints;
      storedPrompt := store.Invoke(threadId, userInput, storedReply);
      RecordedTurn(log, threadId, userInput, storedReply, threadId);
      MirrorsTurn(shown, LatestMessages(log, threadId), userInput, reply, storedReply);
    }

    /**
     * Lines 148-152: a conversation waiting for its first message takes
     * its name from it, saved to the database and shown in the list, and
     * waits no longer. The list and the table stay in agreement.
     */
    method NameIfNew(firstMessage: string)
      requires D.Distinct(chatThreads) && threadId in D.Keys(chatThreads) && Agrees(chatThreads, store.names)
      modifies this, store
      ensures D.Distinct(chatThreads) && D.Keys(chatThreads) == old(D.Keys(chatThreads))
      ensures Agrees(chatThreads, store.names)
      ensures old(isNew) ==>
        && chatThreads == D.Set(old(chatThreads), threadId, Some(GenerateConversationName(firstMessage)))
        && store.names == old(store.names)[threadId := GenerateConversationName(firstMessage)]
      ensures !old(isNew) ==> chatThreads == old(chatThreads) && store.names == old(store.names)
      ensures !isNew && threadId == old(threadId) && history == old(history)
      ensures store.checkpoints == old(store.checkpoints)
    {
      if isNew {
        var name := GenerateConversationName(firstMessage);
        AgreesRename(chatThreads, store.names, threadId, name);
        store.SaveConversationName(threadId, name);
        chatThreads := D.Set(chatThreads, threadId, Some(name));
        isNew := false;
      }
    }

    /** Lines 70-85: the conversation buttons, drawn from the last listed thread to the first. */
    method RenderSidebar() returns (buttons: seq<Button>)
      ensures buttons == Sidebar(chatThreads, threadId)
      ensures Valid() ==> exists i :: 0 <= i < |buttons| && buttons[i].primary
    {
      buttons := [];
      var i := |chatThreads|;
      while i > 0
        invariant 0 <= i <= |chatThreads|
        invariant buttons == Sidebar(chatThreads, threadId)[..|chatThreads| - i]
      {
        var entry := chatThreads[i - 1];
        ghost var all := Sidebar(chatThreads, threadId);
        assert all[|chatThreads| - i] == ButtonFor(entry, threadId);
        assert all[..|chatThreads| - i + 1] == all[..|chatThreads| - i] + [all[|chatThreads| - i]];
        var caption := DisplayName(entry.1);
        if entry.0 == threadId {
          buttons := buttons + [Button(entry.0, CurrentMarker + caption, true)];
        } else {
          buttons := buttons + [Button(entry.0, caption, false)];
        }
        i := i - 1;
      }
      if Valid() {
        OnePrimary(chatThreads, threadId);
      }
    }
  }
}
