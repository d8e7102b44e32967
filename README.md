# Conversation store and session model of a LangGraph chatbot

This project models in Dafny the core of a small chatbot. A Streamlit front
end (`streamlit_database_frontend.py`) keeps one conversation open per
browser session. It lists saved conversations in a sidebar, names a
conversation after its first message, and streams the model's replies. A
LangGraph back end (`langgraph_database_backend.py`) keeps the conversation
names and the checkpointed message threads in SQLite. It also builds the
text prompt for the model.

Modules, following the two source files:

- `Wrappers`: `Option`, standing for Python's `None` or a value.
- `Text`: `''.join` of a list of strings, shared by the naming rule and the
  streamed reply.
- `OrderedDict`: Python's insertion-ordered `dict` as a sequence of
  key/value pairs. Assigning to a present key overwrites it in place,
  `del` keeps the others' order, and iteration follows the sequence.
- `Naming`: `generate_conversation_name`, written as pure functions with
  lemmas about them. It models `str.split()` with Python's whitespace set,
  `' '.join`, `re.split(r'[.!?]')`, `strip()`, and the 40/37 cut.
- `Prompt`: LangChain's message kinds, and the prompt-building loop (one
  method for the two identical copies of it). A lemma reads the prompt back
  into its messages. It also models the streamed reply, which drops empty
  chunks.
- `Store`: a `ConversationStore` class. Its fields are the
  `conversation_names` table (a map) and the checkpoint table, a log of
  thread snapshots listed newest first. `chatbot.invoke` is modelled as a
  method that appends the user's message and the graph's reply to the
  thread's newest snapshot.
- `Session`: a `ChatSession` class for `st.session_state`, with one method
  per user event (new chat, select, delete, chat input). It also holds the
  two role-conversion loops and the sidebar's buttons.

`ChatSession.Valid()` is the invariant every event keeps:

- no thread is listed twice, and the current thread is listed;
- every listed name is what the database holds for that id;
- every thread with stored messages is listed;
- a conversation still waiting for its first message has no history and no
  saved name;
- the displayed history follows the stored thread. The user entries are the
  same. The assistant texts may differ, because the reply shown and the
  reply stored come from two separate model calls.

A message made only of sentence terminators, such as "...", does not fall
back to "New Conversation". `re.split` puts an empty piece first, so line 99
keeps the whole collapsed message, and "..." is named "...". See
`Naming.ExampleDots` and `Naming.CandidateAfterLeadingTerminator`.

Selecting a conversation clears `is_new_conversation`, even when the
selected thread is the current, still unnamed one. That thread then never
gets a name; `Session.ChatSession.SelectThread` states this as `!isNew`.

## Model

| member | source | states |
|---|---|---|
| `OrderedDict.Get` | langgraph_database_backend.py:142 | the value the dict holds for `k`, or None: present exactly when `k` is a key, and then the value stored with `k`. The source never reads these dicts by key; this is the reading the lemmas about `d[k] = v` (backend line 142, frontend line 151) and `del d[k]` (frontend line 109) are stated with |
| `OrderedDict.Set` | langgraph_database_backend.py:142 | `d[k] = v` leaves exactly the old keys plus `k`; a new key is appended last, so iteration follows insertion order; the length grows only when `k` is new |
| `OrderedDict.AddIfAbsent` | streamlit_database_frontend.py:32-34 | a present key changes nothing; a new key is appended last; the keys gain `k`; no key appears twice if none did before |
| `OrderedDict.GetSetSame` | langgraph_database_backend.py:142 | after `d[k] = v`, reading `k` gives `v` |
| `OrderedDict.GetSetOther` | langgraph_database_backend.py:142 | after `d[k] = v`, every other key reads as before |
| `OrderedDict.SetPresentInPlace` | streamlit_database_frontend.py:151 | assigning to a present key replaces that entry in its position and leaves every other entry where it was |
| `OrderedDict.SetDistinct` | langgraph_database_backend.py:142 | assignment never makes a key appear twice |
| `OrderedDict.RemoveKeys` | streamlit_database_frontend.py:109 | after `del d[k]` the keys are the old ones minus `k`, still without duplicates |
| `OrderedDict.RemoveAt` | streamlit_database_frontend.py:109 | `del d[k]` removes exactly the entry for `k`; the rest keep their order |
| `OrderedDict.Remove` | streamlit_database_frontend.py:109 | `del d[k]` on a present key removes one entry and adds no key. On an absent key Python raises KeyError, but the model returns the dict unchanged (see "## Left out") |
| `OrderedDict.GetRemoveOther` | streamlit_database_frontend.py:109 | `del d[k]` leaves every other key's value unchanged |
| `Naming.SplitWords` | langgraph_database_backend.py:92 | `split()` yields whitespace-free, non-empty words, and none exactly when the message is all whitespace |
| `Naming.SplitWordsOfWord` | langgraph_database_backend.py:92 | a whitespace-free, non-empty text splits into itself alone |
| `Naming.SplitWordsAppend` | langgraph_database_backend.py:92 | a whitespace run cuts: the words of `u`, a non-empty whitespace run, then `v`, are the words of `u` followed by the words of `v`; with the line above this fixes `split()` |
| `Naming.SplitWordsKeepsText` | langgraph_database_backend.py:92 | the words together hold every non-whitespace character of the message, in order |
| `Naming.JoinWordsShape` | langgraph_database_backend.py:92 | joining words with single spaces gives a collapsed text: no leading, trailing or doubled space; empty only for no words; with the words' characters and nothing else; exactly one character longer per pair of neighbouring words |
| `Naming.SplitJoinWords` | langgraph_database_backend.py:92 | splitting `' '.join(ws)` gives the words `ws` back |
| `Naming.Collapse` | langgraph_database_backend.py:92 | the cleaned message is collapsed and has exactly the words of the message, in order |
| `Naming.CollapseShape` | langgraph_database_backend.py:92 | the cleaned message is collapsed, keeps exactly the message's non-space characters, and is empty exactly for an all-whitespace message |
| `Naming.CollapseIdempotent` | langgraph_database_backend.py:92 | cleaning a cleaned message changes nothing |
| `Naming.SplitSentences` | langgraph_database_backend.py:95 | `re.split(r'[.!?]')` gives at least one piece; no piece holds a terminator; the first piece is the prefix up to the first terminator or the end |
| `Naming.TrimStart` | langgraph_database_backend.py:97 | `lstrip()` drops exactly the leading whitespace |
| `Naming.Strip` | langgraph_database_backend.py:97 | `strip()` keeps the piece of the text after its leading whitespace run and before its trailing one, which neither starts nor ends with whitespace |
| `Naming.TrimEnd` | langgraph_database_backend.py:97 | `rstrip()` drops exactly the trailing whitespace |
| `Naming.Truncate` | langgraph_database_backend.py:101-103 | names of at most 40 characters are kept; longer ones become their first 37 characters plus "...", 40 in all |
| `Naming.GenerateConversationName` | langgraph_database_backend.py:86-105 | the name is never empty and never over 40 characters; a long candidate is cut to 37 characters plus "..."; a short one is kept; an empty one becomes "New Conversation" |
| `Naming.Candidate` | langgraph_database_backend.py:92-99 | the name before the cut is the whole cleaned message or a piece of it without '.', '!' or '?' |
| `Naming.CandidateIsPrefix` | langgraph_database_backend.py:92-99 | the name before the cut is a prefix of the cleaned message |
| `Naming.CandidateEmptyIff` | langgraph_database_backend.py:96-105 | the candidate is empty exactly for an all-whitespace message, which is named "New Conversation" |
| `Naming.CandidateAfterLeadingTerminator` | langgraph_database_backend.py:95-99 | when the cleaned message starts with '.', '!' or '?', the whole cleaned message is the candidate |
| `Naming.CandidateFirstSentence` | langgraph_database_backend.py:95-97 | otherwise the candidate is a non-empty, terminator-free, collapsed prefix of the cleaned message; it ends at the message's end or at a terminator, possibly before one stripped space |
| `Naming.CollapseOfCollapsed` | langgraph_database_backend.py:92 | an already collapsed text is its own cleaned form |
| `Naming.CandidateOfSentence` | langgraph_database_backend.py:92-99 | a collapsed, terminator-free message is its own candidate |
| `Naming.SentenceName` | langgraph_database_backend.py:92-105 | such a message is its own name, or its first 37 characters plus "..." when it is over 40 |
| `Naming.ExampleDots` | langgraph_database_backend.py:95-99 | "..." is named "..." |
| `Prompt.BuildPrompt` | langgraph_database_backend.py:29-36 | the prompt is the "User: " / "Assistant: " lines of the human and AI messages, joined by newlines; the identical loop at lines 47-54 is the same method |
| `Prompt.PromptRoundTrip` | langgraph_database_backend.py:29-36 | for single-line contents, reading the prompt back gives exactly the human and AI messages, in order, with their contents; other kinds are skipped |
| `Prompt.SplitJoinLines` | langgraph_database_backend.py:36 | splitting the newline-joined lines at newlines gives those lines back |
| `Prompt.Conversational` | langgraph_database_backend.py:30-34 | only human and AI messages remain |
| `Prompt.StreamedChunks` | langgraph_database_backend.py:59-61 | every chunk passed on is non-empty, and together they make up the model's whole text |
| `Store.WithoutThread` | langgraph_database_backend.py:131 | no checkpoint of the deleted thread remains |
| `Store.ConversationStore.constructor` | langgraph_database_backend.py:67-77 | a new database file starts with both tables empty (`CREATE TABLE IF NOT EXISTS` keeps the rows of an existing file, and `Start` accepts a store in any state) |
| `Store.ConversationStore.SaveConversationName` | langgraph_database_backend.py:107-114 | insert-or-replace: the id maps to the new name, nothing else changes, and saving the same name again changes nothing |
| `Store.ConversationStore.GetConversationName` | langgraph_database_backend.py:116-121 | the saved name exactly when the id has one, otherwise None |
| `Store.ConversationStore.DeleteConversation` | langgraph_database_backend.py:123-134 | the name row and every checkpoint of the id are gone, and the result is true whether or not the id existed |
| `Store.ConversationStore.RetrieveAllThreads` | langgraph_database_backend.py:136-144 | one entry per distinct thread id of the checkpoint table, no id twice, each holding that id's saved name or None |
| `Store.ConversationStore.Invoke` | langgraph_database_backend.py:25-42 | the graph sends the prompt of the thread's newest messages plus the user's message, and stores a new newest snapshot with the user's message and the reply appended; names are untouched |
| `Store.ListingShape` | langgraph_database_backend.py:136-144 | the listing's keys are exactly the checkpointed thread ids, without duplicates, each with its saved name or None |
| `Store.ListingKeys` | langgraph_database_backend.py:139-142 | the listing's keys are the thread ids of the checkpoint table |
| `Store.ListingDistinct` | langgraph_database_backend.py:139-142 | no thread id is listed twice |
| `Store.ListingValues` | langgraph_database_backend.py:141-142 | every listed value is that id's saved name, or None |
| `Store.LatestMessages` | streamlit_database_frontend.py:36-39 | loaded messages, when there are any, are those of one of the thread's own snapshots |
| `Store.LatestIsNewest` | streamlit_database_frontend.py:36-39 | they are the messages of the thread's first snapshot in the newest-first listing |
| `Store.LatestOfUnknown` | streamlit_database_frontend.py:36-39 | a thread without checkpoints loads as no messages |
| `Store.WithoutThreadIds` | langgraph_database_backend.py:131 | deleting removes exactly that id from the checkpointed ids, after which it loads as no messages |
| `Store.WithoutThreadOthers` | langgraph_database_backend.py:131 | deleting one thread leaves every other thread's newest messages unchanged |
| `Store.DeletedThreadNotListed` | langgraph_database_backend.py:123-144 | after a delete, the listing holds every thread but the deleted one |
| `Store.RecordedTurn` | streamlit_database_frontend.py:188-191 | a recorded turn extends that thread's messages by the user's message and the reply, changes no other thread, and adds the thread to the ids |
| `Session.LoadedToHistory` | streamlit_database_frontend.py:92-101 | one entry per loaded message with its content, in order; the user's exactly for human messages |
| `Session.HistoryToMessages` | streamlit_database_frontend.py:170-175 | one human or AI message per entry with its content, in order; human exactly for the user's entries |
| `Session.AccumulateReply` | streamlit_database_frontend.py:167-179 | the shown reply is the streamed chunks joined in order |
| `Session.HistoryRoundTrip` | streamlit_database_frontend.py:170-175 | converting the history to messages and back gives the same history |
| `Session.MessagesRoundTrip` | streamlit_database_frontend.py:92-101 | a thread of human and AI messages survives loading and sending back unchanged |
| `Session.OtherComesBackAsAI` | streamlit_database_frontend.py:95-99 | a message of another kind is shown as the assistant's and sent back as an AI message |
| `Session.MirrorsTurn` | streamlit_database_frontend.py:143-191 | appending a turn to both the shown history and the stored thread keeps them in step |
| `Session.PromptsAgree` | streamlit_database_frontend.py:170-191 | when the shown history is exactly the stored thread, the streaming prompt and the graph's prompt are the same text |
| `Session.DisplayName` | streamlit_database_frontend.py:73 | the caption is never empty: the saved name when it is non-empty, otherwise "New Chat" |
| `Session.SidebarShape` | streamlit_database_frontend.py:70-85 | one button per listed thread, the last listed first; a button is highlighted and marked "▶ " exactly for the current thread; its caption is the saved name, or "New Chat" when there is none or it is empty |
| `Session.OnePrimary` | streamlit_database_frontend.py:79-85 | in a list with no duplicates that holds the current thread, exactly one button is highlighted |
| `Session.SidebarNewestFirst` | streamlit_database_frontend.py:69-71 | a thread added to the list gets the top button, and the others move down one |
| `Session.AgreesRename` | streamlit_database_frontend.py:149-151 | naming a listed thread in both the list and the table keeps the list equal to the table, without duplicates and with the same ids |
| `Session.AgreesRemove` | streamlit_database_frontend.py:108-109 | deleting a thread from both the table and the list keeps them in agreement |
| `Session.ChatSession.Start` | streamlit_database_frontend.py:43-56 | a first run has empty history, a new thread waiting for its first message, and the database's threads with the new one appended; the invariant holds |
| `Session.ChatSession.ResetChat` | streamlit_database_frontend.py:26-30 | a new current thread, empty history, waiting for its first message; the list is untouched |
| `Session.ChatSession.AddThread` | streamlit_database_frontend.py:32-34 | the thread is appended with its name unless already listed |
| `Session.ChatSession.EnsureCurrentListed` | streamlit_database_frontend.py:55-56 | the current thread is appended, unnamed, unless already listed |
| `Session.ChatSession.NewChat` | streamlit_database_frontend.py:63-65 | a fresh current thread, appended last to the list, waiting for its first message; the invariant is kept |
| `Session.ChatSession.SelectThread` | streamlit_database_frontend.py:87-102 | the chosen thread becomes current, no longer waits for a first message, and shows its newest stored messages; the invariant is kept |
| `Session.ChatSession.DeleteThread` | streamlit_database_frontend.py:106-115 | the thread leaves the database and the list, with the rest in order; deleting the current thread opens a fresh one appended last; the invariant is kept |
| `Session.ChatSession.NameIfNew` | streamlit_database_frontend.py:148-152 | a conversation waiting for its first message gets the generated name, in the table and in the list in place; otherwise neither changes |
| `Session.ChatSession.SubmitTurn` | streamlit_database_frontend.py:140-191 | an empty input changes nothing. Otherwise: the history gains the user's entry and the streamed reply; a new conversation is named from its first message; the stream gets the prompt of the shown history; the graph stores the user's message with its own reply; the invariant is kept |
| `Session.ChatSession.RenderSidebar` | streamlit_database_frontend.py:70-85 | the buttons are the list read from last to first, and in a valid session one of them is highlighted |

## Left out

- Streamlit rendering: markdown, chat bubbles, the welcome screen, widget keys, columns and the "▌" cursor. A user event is a method call, and `st.rerun()` is the rerun's re-execution of lines 55-56.
- Gemini calls are parameters. The streamed chunks (`modelChunks`) and the graph's own reply (`storedReply`) are given to `SubmitTurn`. They are two independent model calls, so the stored reply need not equal the shown one.
- Environment loading and the API-key check (backend lines 11-20) are I/O.
- SQLite, LangGraph and SqliteSaver internals: transactions, the `writes` table, `created_at` and the graph wiring (lines 79-84).
- Store.ConversationStore.Invoke: does not model several checkpoints per invoke. One invoke stores one snapshot, the thread's state after the graph ran.
- Store.ConversationStore.Invoke: does not model `add_messages` merging by message id. The new messages are appended, which is what happens for new messages without ids.
- The checkpoint listing is taken as newest first, the order in which SqliteSaver lists checkpoints.
- `uuid.uuid4()` is a parameter. Its uniqueness is a precondition. `NewChat` and `DeleteThread` require `Fresh`: the id is neither listed nor named. `Start` requires the id to be neither named nor among the checkpointed thread ids. That is the same condition, because on the first run the list is exactly the checkpointed ids.
- Session.ChatSession.Valid: assumes every Gemini and SQLite call succeeds. By the time a chat input can fail, the source has already added the user's history entry (line 143) and saved a name (lines 148-152). If the streaming call (backend line 57, reached through line 177) raises, no reply is shown and `chatbot.invoke` never runs, so nothing is stored. If the graph's own call (backend line 39, inside `invoke` at line 188) raises, the shown reply is already in the history (line 185). LangGraph has also stored the input checkpoint with the user's message but no reply. Either way the shown history no longer follows the stored thread, and `Valid` no longer holds.
- OrderedDict.Remove: Python's `del d[k]` raises KeyError when `k` is absent; the model returns the dict unchanged instead. The one call site (frontend line 109) deletes only a key taken from the list being shown, and `DeleteThread` requires the id to be listed.
- Session.ChatSession.Valid: assumes one browser session owns the store. Every Streamlit session shares the one module-level `conn` and checkpointer. Another tab's turn, rename or delete changes the store without this session's list, which breaks the agreement between the list and the table and the rule that every stored thread is listed.
- Thread ids are strings everywhere. In the source, new ids are `UUID` objects while listed ids are strings.
- Python's `re` engine beyond the one character class is not modelled, and neither is Unicode normalisation.
- `Naming.IsSpace` is Python's `str.isspace()` code-point set as a fixed list. Characters are Dafny `char` values.
