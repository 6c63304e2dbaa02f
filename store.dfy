/**
 * The shared conversation memory: `ai_context`, a map from channel id (its
 * decimal string) to the ordered list of messages of that channel. The
 * source guards it with a mutex; here it is used by one caller at a time.
 */
module Store {
  import opened Chat

  class ConversationStore {
    var contexts: map<string, seq<Message>>

    /** `HashMap::new()` at start-up: no channel has a history yet. */
    constructor ()
      ensures contexts == map[]
    {
      contexts := map[];
    }

    /** A channel's history; `entry(..).or_default()` sees a missing channel as empty. */
    function History(channel: string): seq<Message>
      reads this
    {
      if channel in contexts then contexts[channel] else []
    }

    /** `entry(channel).or_default().push(m)`: the channel's list grows by `m` at its end. */
    method Append(channel: string, m: Message)
      modifies this
      ensures contexts == old(contexts)[channel := old(History(channel)) + [m]]
      ensures History(channel) == old(History(channel)) + [m]
      ensures forall c :: c != channel ==> History(c) == old(History(c))
    {
      contexts := contexts[channel := History(channel) + [m]];
    }

    /** `channel_context.clone()`: a copy of the channel's list, unaffected by later appends. */
    method Snapshot(channel: string) returns (s: seq<Message>)
      ensures channel in contexts ==> s == contexts[channel]
      ensures channel !in contexts ==> s == []
    {
      s := History(channel);
    }

    /**
     * `entry(channel).or_default().clear()`: the channel's list becomes empty,
     * its entry exists afterwards, and every other channel keeps its list.
     */
    method Clear(channel: string)
      modifies this
      ensures contexts == old(contexts)[channel := []]
      ensures channel in contexts && History(channel) == []
      ensures forall c :: c != channel ==> (c in contexts <==> c in old(contexts)) && History(c) == old(History(c))
    {
      contexts := contexts[channel := []];
    }
  }
}
