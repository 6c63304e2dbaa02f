/**
 * `process_message`: record the user's message in the channel's history,
 * select the context window, stream the answer into the placeholder reply,
 * and on the finish reason record the answer in the history.
 */
module Oai {
  import opened Wrappers
  import opened Decimal
  import opened Chat
  import opened Selection
  import opened Stream
  import opened Store

  /**
   * One request. The channel's history receives the user line at once and,
   * only once a chunk carries a finish reason, the streamed response
   * (footer excluded) as a second message, which the source builds with the
   * User role. `systemPrompt` is the fixed instruction text, `streamStart`
   * the time `last_update` is first taken, `footer` the timing and
   * disclaimer line of the final edit.
   */
  method ProcessMessage(store: ConversationStore, channelId: nat, nick: Option<string>, accountName: string,
                        authorId: nat, content: string, systemPrompt: string, cost: TikMsg -> nat,
                        streamStart: nat, chunks: seq<Chunk>, footer: string)
    returns (submitted: seq<Message>, edits: seq<Edit>, finalEdit: Option<string>)
    modifies store
    ensures var key := DecimalString(channelId);
            var user := User(UserLine(Speaker(nick, accountName), authorId, content));
            var history := old(store.History(key)) + [user];
            && submitted == Window(cost, history, System(systemPrompt))
            && store.contexts == old(store.contexts)[key :=
                 if Finishes(chunks) then history + [User(Concat(chunks[..Consumed(chunks)]))] else history]
    ensures edits == Run(streamStart, chunks[..Consumed(chunks)]).edits
    ensures Finishes(chunks) <==> finalEdit.Some?
    ensures finalEdit.Some? ==> finalEdit.value == FinalText(Concat(chunks[..Consumed(chunks)]), footer)
  {
    var key := DecimalString(channelId);
    var userMessage := User(UserLine(Speaker(nick, accountName), authorId, content));
    ghost var before := store.contexts;
    ghost var history := store.History(key) + [userMessage];
    store.Append(key, userMessage);
    assert store.contexts == before[key := history];
    var messages := store.Snapshot(key);
    assert messages == history;
    var sysMsg := System(systemPrompt);
    submitted := SelectWindow(cost, messages, sysMsg);
    assert submitted == Window(cost, history, System(systemPrompt));
    var response, consumed, attempts;
    response, edits, finalEdit, consumed, attempts := StreamResponse(streamStart, chunks, footer);
    assert response == Concat(chunks[..Consumed(chunks)]);
    if finalEdit.Some? {
      store.Append(key, User(response));
      assert store.contexts == before[key := history + [User(response)]];
    } else {
      assert !Finishes(chunks);
    }
  }
}
