/**
 * The persistence side of langgraph_database_backend.py: the
 * `conversation_names` table and LangGraph's checkpoint table, both behind
 * one SQLite connection.
 */
module Store {
  import opened Wrappers
  import opened Prompt
  import D = OrderedDict

  /** One row of the checkpoint table: a snapshot of a thread's messages. */
  datatype Checkpoint = Checkpoint(threadId: string, messages: seq<Message>)

  /** The distinct thread ids a checkpoint listing mentions. */
  function ThreadIds(log: seq<Checkpoint>): set<string> {
    set i | 0 <= i < |log| :: log[i].threadId
  }

  /**
   * The messages of a thread's newest snapshot (the listing is newest
   * first), or none for a thread without a snapshot.
   */
  function LatestMessages(log: seq<Checkpoint>, threadId: string): (r: seq<Message>)
    ensures r != [] ==> Checkpoint(threadId, r) in log
  {
    if log == [] then []
    else if log[0].threadId == threadId then log[0].messages
    else
      var r := LatestMessages(log[1..], threadId);
      assert r != [] ==> Checkpoint(threadId, r) in log[1..];
      r
  }

  /** The loaded messages are those of the thread's first, that is newest, snapshot. */
  lemma {:induction false} LatestIsNewest(log: seq<Checkpoint>, threadId: string, i: nat)
    requires i < |log| && log[i].threadId == threadId
    requires forall j :: 0 <= j < i ==> log[j].threadId != threadId
    ensures LatestMessages(log, threadId) == log[i].messages
  {
    if i > 0 {
      assert log[0].threadId != threadId;
      assert forall j :: 0 <= j < i - 1 ==> log[1..][j] == log[j + 1];
      LatestIsNewest(log[1..], threadId, i - 1);
    }
  }

  /** The listing after `DELETE FROM checkpoints WHERE thread_id = ?`. */
  function WithoutThread(log: seq<Checkpoint>, threadId: string): (r: seq<Checkpoint>)
    ensures forall i :: 0 <= i < |r| ==> r[i].threadId != threadId
  {
    if log == [] then []
    else
      var rest := WithoutThread(log[1..], threadId);
      if log[0].threadId == threadId then rest else [log[0]] + rest
  }

  /** `all_threads` after `retrieve_all_threads` has walked `log` (lines 138-142). */
  function Listing(log: seq<Checkpoint>, names: map<string, string>): D.Dict<string, Option<string>> {
    if log == [] then []
    else
      var id := log[|log| - 1].threadId;
      D.Set(Listing(log[..|log| - 1], names), id, MapGet(names, id))
  }

  class ConversationStore {
    /** `conversation_names`: thread id to display name. */
    var names: map<string, string>
    /** The checkpoint table, in the order `checkpointer.list(None)` yields it (newest first). */
    var checkpoints: seq<Checkpoint>

    constructor ()
      ensures names == map[] && checkpoints == []
    {
      names := map[];
      checkpoints := [];
    }

    /**
     * `save_conversation_name` (lines 107-114): insert or replace the row
     * for the id. Saving a name the id already has changes nothing.
     */
    method SaveConversationName(threadId: string, name: string)
      modifies this
      ensures names == old(names)[threadId := name]
      ensures threadId in old(names) && old(names)[threadId] == name ==> names == old(names)
      ensures checkpoints == old(checkpoints)
    {
      names := names[threadId := name];
    }

    /** `get_conversation_name` (lines 116-121): the saved name, or None. */
    method GetConversationName(threadId: string) returns (r: Option<string>)
      ensures r.Some? <==> threadId in names
      ensures r.Some? ==> r.value == names[threadId]
    {
      if threadId in names {
        r := Some(names[threadId]);
      } else {
        r := None;
      }
    }

    /**
     * `delete_conversation` (lines 123-134): drop the id's name row and
     * every checkpoint of the id, and report success whether or not the id
     * was there.
     */
    method DeleteConversation(threadId: string) returns (ok: bool)
      modifies this
      ensures ok
      ensures names == old(names) - {threadId}
      ensures checkpoints == WithoutThread(old(checkpoints), threadId)
    {
      names := names - {threadId};
      checkpoints := WithoutThread(checkpoints, threadId);
      ok := true;
    }

    /**
     * `retrieve_all_threads` (lines 136-144): one entry per distinct thread
     * id of the checkpoint table, holding that id's saved name or None.
     */
    method RetrieveAllThreads() returns (all: D.Dict<string, Option<string>>)
      ensures all == Listing(checkpoints, names)
      ensures D.Keys(all) == ThreadIds(checkpoints)
      ensures D.Distinct(all)
      ensures forall i :: 0 <= i < |all| ==> all[i].1 == MapGet(names, all[i].0)
    {
      all := [];
      var i := 0;
      while i < |checkpoints|
        invariant 0 <= i <= |checkpoints|
        invariant all == Listing(checkpoints[..i], names)
      {
        ListingStep(checkpoints, names, i);
        var threadId := checkpoints[i].threadId;
        var name := GetConversationName(threadId);
        all := D.Set(all, threadId, name);
        i := i + 1;
      }
      assert checkpoints[..i] == checkpoints;
      ListingShape(checkpoints, names);
    }

    /**
     * `chatbot.invoke` on one user message (frontend lines 188-191, through
     * `chat_node`, lines 25-42): the graph appends the user message and the
     * model's reply to the thread's newest state and stores that as a new
     * snapshot. `reply` is what that second model call returned.
     */
    method Invoke(threadId: string, userInput: string, reply: string) returns (prompt: string)
      modifies this
      ensures prompt == PromptOf(LatestMessages(old(checkpoints), threadId) + [Human(userInput)])
      ensures checkpoints ==
        [Checkpoint(threadId, LatestMessages(old(checkpoints), threadId) + [Human(userInput), AI(reply)])]
        + old(checkpoints)
      ensures names == old(names)
    {
      var state := LatestMessages(checkpoints, threadId) + [Human(userInput)];
      assert state + [AI(reply)] == LatestMessages(checkpoints, threadId) + [Human(userInput), AI(reply)];
      prompt := BuildPrompt(state);
      checkpoints := [Checkpoint(threadId, state + [AI(reply)])] + checkpoints;
    }
  }

  // ---------------------------------------------------------------------
  // Lemmas

  /** One more checkpoint walked by `retrieve_all_threads` assigns its id's name. */
  lemma ListingStep(log: seq<Checkpoint>, names: map<string, string>, i: nat)
    requires i < |log|
    ensures Listing(log[..i + 1], names) == D.Set(Listing(log[..i], names), log[i].threadId, MapGet(names, log[i].threadId))
  {
    assert log[..i + 1][..i] == log[..i];
  }

  /**
   * The listing has one entry per distinct thread id of the log, no id
   * twice, and each entry's value is that id's saved name (None if unnamed).
   */
  lemma ListingShape(log: seq<Checkpoint>, names: map<string, string>)
    ensures D.Keys(Listing(log, names)) == ThreadIds(log)
    ensures D.Distinct(Listing(log, names))
    ensures forall i :: 0 <= i < |Listing(log, names)| ==>
      Listing(log, names)[i].1 == MapGet(names, Listing(log, names)[i].0)
  {
    ListingKeys(log, names);
    ListingDistinct(log, names);
    ListingValues(log, names);
  }

  lemma ThreadIdsSnoc(log: seq<Checkpoint>)
    requires log != []
    ensures ThreadIds(log) == ThreadIds(log[..|log| - 1]) + {log[|log| - 1].threadId}
  {
    var init := log[..|log| - 1];
    forall x | x in ThreadIds(log) ensures x in ThreadIds(init) + {log[|log| - 1].threadId} {
      var i :| 0 <= i < |log| && log[i].threadId == x;
      if i < |init| { assert init[i].threadId == x; }
    }
    forall x | x in ThreadIds(init) ensures x in ThreadIds(log) {
      var i :| 0 <= i < |init| && init[i].threadId == x;
      assert log[i].threadId == x;
    }
  }

  lemma {:induction false} ListingKeys(log: seq<Checkpoint>, names: map<string, string>)
    ensures D.Keys(Listing(log, names)) == ThreadIds(log)
  {
    if log != [] {
      ListingKeys(log[..|log| - 1], names);
      ThreadIdsSnoc(log);
    }
  }

  lemma {:induction false} ListingDistinct(log: seq<Checkpoint>, names: map<string, string>)
    ensures D.Distinct(Listing(log, names))
  {
    if log != [] {
      var init, id := log[..|log| - 1], log[|log| - 1].threadId;
      ListingDistinct(init, names);
      D.SetDistinct(Listing(init, names), id, MapGet(names, id));
    }
  }

  lemma {:induction false} ListingValues(log: seq<Checkpoint>, names: map<string, string>)
    ensures forall i :: 0 <= i < |Listing(log, names)| ==>
      Listing(log, names)[i].1 == MapGet(names, Listing(log, names)[i].0)
  {
    if log != [] {
      var init, id := log[..|log| - 1], log[|log| - 1].threadId;
      ListingValues(init, names);
      var prev := Listing(init, names);
      D.SetEntries(prev, id, MapGet(names, id));
      var r := D.Set(prev, id, MapGet(names, id));
      forall i | 0 <= i < |r| ensures r[i].1 == MapGet(names, r[i].0) {
        if r[i] != (id, MapGet(names, id)) {
          var j :| 0 <= j < |prev| && prev[j] == r[i];
        }
      }
    }
  }

  /** A thread id with no checkpoint has no messages. */
  lemma {:induction false} LatestOfUnknown(log: seq<Checkpoint>, threadId: string)
    requires threadId !in ThreadIds(log)
    ensures LatestMessages(log, threadId) == []
  {
    if log != [] {
      assert ThreadIds(log[1..]) <= ThreadIds(log) by {
        forall x | x in ThreadIds(log[1..]) ensures x in ThreadIds(log) {
          var i :| 0 <= i < |log[1..]| && log[1..][i].threadId == x;
          assert log[i + 1].threadId == x;
        }
      }
      assert log[0].threadId in ThreadIds(log);
      LatestOfUnknown(log[1..], threadId);
    }
  }

  lemma ThreadIdsCons(log: seq<Checkpoint>)
    requires log != []
    ensures ThreadIds(log) == {log[0].threadId} + ThreadIds(log[1..])
  {
    forall x | x in ThreadIds(log) ensures x in {log[0].threadId} + ThreadIds(log[1..]) {
      var i :| 0 <= i < |log| && log[i].threadId == x;
      if i > 0 { assert log[1..][i - 1].threadId == x; }
    }
    forall x | x in ThreadIds(log[1..]) ensures x in ThreadIds(log) {
      var i :| 0 <= i < |log[1..]| && log[1..][i].threadId == x;
      assert log[i + 1].threadId == x;
    }
  }

  /**
   * Deleting a thread's checkpoints removes exactly that id from the ids
   * of the table, after which the thread has no messages.
   */
  lemma {:induction false} WithoutThreadIds(log: seq<Checkpoint>, threadId: string)
    ensures ThreadIds(WithoutThread(log, threadId)) == ThreadIds(log) - {threadId}
    ensures LatestMessages(WithoutThread(log, threadId), threadId) == []
  {
    if log != [] {
      WithoutThreadIds(log[1..], threadId);
      ThreadIdsCons(log);
      var r := WithoutThread(log, threadId);
      if log[0].threadId != threadId {
        ThreadIdsCons(r);
      }
    }
    LatestOfUnknown(WithoutThread(log, threadId), threadId);
  }

  /** Deleting a thread's checkpoints leaves every other thread's newest messages as they were. */
  lemma {:induction false} WithoutThreadOthers(log: seq<Checkpoint>, threadId: string, other: string)
    requires other != threadId
    ensures LatestMessages(WithoutThread(log, threadId), other) == LatestMessages(log, other)
  {
    if log != [] {
      WithoutThreadOthers(log[1..], threadId, other);
    }
  }

  /**
   * After `delete_conversation(t)`, `retrieve_all_threads` lists every
   * thread but `t`.
   */
  lemma DeletedThreadNotListed(log: seq<Checkpoint>, names: map<string, string>, threadId: string)
    ensures D.Keys(Listing(WithoutThread(log, threadId), names - {threadId})) == ThreadIds(log) - {threadId}
  {
    ListingShape(WithoutThread(log, threadId), names - {threadId});
    WithoutThreadIds(log, threadId);
  }

  /** Recording a turn adds it to that thread's messages and no other's. */
  lemma RecordedTurn(log: seq<Checkpoint>, threadId: string, userInput: string, reply: string, other: string)
    ensures var log' := [Checkpoint(threadId, LatestMessages(log, threadId) + [Human(userInput), AI(reply)])] + log;
      && LatestMessages(log', threadId) == LatestMessages(log, threadId) + [Human(userInput), AI(reply)]
      && (other != threadId ==> LatestMessages(log', other) == LatestMessages(log, other))
      && ThreadIds(log') == ThreadIds(log) + {threadId}
  {
    var log' := [Checkpoint(threadId, LatestMessages(log, threadId) + [Human(userInput), AI(reply)])] + log;
    ThreadIdsCons(log');
    assert log'[1..] == log;
  }
}
