# deskhelp conversation memory and response pipeline, in Dafny

A model of the part of the DeskThing Discord help bot that has real logic:

- the **conversation store**, a map from a channel id (its decimal string) to the ordered list of chat messages of that channel, appended to on every request and on every finished answer, and cleared by the `wack` command;
- the **context-window selection** of `process_message`: starting from the system message's token cost, walk the channel history newest first, keep each message while the running total stays within `TOKEN_LIMIT` (128000), stop at the first message that does not fit, and submit the system message followed by the kept messages in chronological order;
- the **streaming loop**: each chunk's content fragment is appended to `response`; an intermediate edit of the placeholder reply, showing the whole of `response`, is attempted only when at least `UPDATE_INTERVAL` (one second) has passed since `last_update`; the first chunk with a finish reason triggers one final edit (`response` plus a footer), records `response` in the channel's history and ends the loop; a failed edit is only logged;
- the **conversion to the tokenizer's message shape** (`aoai_to_tiktoken`) and the user line `"{nick} ({id}): {content}"`;
- the **reply rule** of the message handler: `mentioned || (listed && !bot && !content.starts_with("~"))`, where the channel list is `AUTORESPOND_CHANNELS` (or the default `"-1302692329400041482"`) split at commas.

Modules, one per component: `Wrappers` (Option), `Decimal` (decimal rendering of the `u64` snowflake ids), `Chat` (messages, role mapping, user line), `Selection` (window selection), `Stream` (accumulator and throttle), `Store` (the `ConversationStore` class), `Oai` (`process_message`), `Bot` (`src/main.rs`: `wack`, channel-list splitting, reply rule).

Modelling choices:

- The tokenizer is a parameter `cost: TikMsg -> nat`. It stands for what `TOKEN_LIMIT - get_chat_completion_max_tokens(..)` computes for one converted message.
- Time is a `nat` count of milliseconds. Each chunk carries the time it was received, and `streamStart` is the moment `last_update` is first taken. `Instant::elapsed` saturates at zero (`Stream.Elapsed`).
- The outcome of every edit is a nondeterministic boolean. It is logged in `attempts` and affects nothing else, so every postcondition holds whichever edits fail.
- The stream is a given `seq<Chunk>`; a chunk is its first choice (`choices[0]`), with an optional content fragment and a finish flag.
- The code commits the answer inside the loop, just before its `break`. The model commits right after the loop when a finish reason was seen. The two are equivalent.
- The system prompt text (`src/oai.rs:17-76`) is the parameter `systemPrompt`. The footer (elapsed times and a disclaimer, `src/oai.rs:216-220`) is the opaque parameter `footer`.
- The finished answer is recorded with the **User** role, not Assistant (`src/oai.rs:231-235`).
- A failed edit is only logged (`src/oai.rs:209-211`, `src/oai.rs:225-227`); nothing else happens and no new message is opened.
- A failing tokenizer, stream creation or stream read panics through `expect` (`src/oai.rs:162`, `src/oai.rs:169`, `src/oai.rs:197`, `src/oai.rs:202`), so there is no error result to model. Those paths are left out below.

## Model

| member | source | states |
|---|---|---|
| Chat.ToTiktoken | src/oai.rs:78-110 | System, User and Assistant map to the roles "system", "user", "assistant"; the text passes through unchanged, so reading the role and content back recovers the message |
| Chat.ToTiktokenInjective | src/oai.rs:78-110 | two messages with the same tokenizer view are equal: the conversion loses nothing |
| Chat.UserLine | src/oai.rs:133-141 | the user text is the speaker, then " (", the author id in decimal, "): " and the raw content, with lengths adding up |
| Decimal.DecimalString | src/oai.rs:137 | an id renders as a non-empty string of decimal digits without a leading zero |
| Decimal.ParseDecimalString | src/oai.rs:137 | reading the decimal rendering back gives the id |
| Decimal.DecimalStringInjective | src/oai.rs:146 | distinct channel ids give distinct store keys |
| Selection.Kept | src/oai.rs:163-176 | the number of newest messages the loop keeps, never more than the history holds |
| Selection.Window | src/oai.rs:163-180 | the submitted list: the system message first, then the last (length minus one) messages of the history in their order |
| Selection.SelectWindow | src/oai.rs:157-180 | the loop's result is the greedy window: the system message first, then a trailing run of the history in chronological order |
| Selection.WindowWithinBudget | src/oai.rs:160-176 | when the system message fits on its own, the system cost plus the kept messages' costs never exceeds TOKEN_LIMIT |
| Selection.WindowOverBudgetSystem | src/oai.rs:163-178 | when the system cost alone exceeds the limit, exactly the system message is sent |
| Selection.WindowMaximal | src/oai.rs:170-172 | when history is left out, adding the next-older message would exceed TOKEN_LIMIT |
| Selection.WindowLongestFit | src/oai.rs:166-176 | a trailing run of j >= 1 messages fits beside the system message exactly when j is at most the number kept: the window is the longest fitting suffix, and no older message is taken after the first that does not fit |
| Selection.WindowOfEmptyHistory | src/oai.rs:158-180 | an empty history sends only the system message |
| Selection.WindowAfterReset | src/oai.rs:144-180 | right after `wack` the history holds only the new user line, and the submitted list is the system message and that line whenever the two fit |
| Stream.Step | src/oai.rs:203-212 | one chunk appends its fragment to the response; it adds an edit exactly when it has content and at least UPDATE_INTERVAL has passed since `last_update`; that edit shows the new response, is taken at the chunk's time, and the time becomes `last_update` |
| Stream.Run | src/oai.rs:199-212 | the loop's variables after a run of chunks: at most one edit per chunk, and `last_update` is the stream start until the first edit |
| Stream.Consumed | src/oai.rs:202-237 | the loop reads the chunks up to and including the first one with a finish reason, or all of them |
| Stream.RunResponse | src/oai.rs:199-204 | the accumulated response is the in-order concatenation of the chunks' fragments; chunks without content add nothing |
| Stream.RunEditsSpaced | src/oai.rs:200-212 | each intermediate edit comes at least UPDATE_INTERVAL after the previous one (the first after the stream start), and `last_update` is the latest edit's time |
| Stream.StepKeepsSpaced | src/oai.rs:203-212 | one chunk keeps the spacing of the edits and the meaning of `last_update` |
| Stream.RunEditsShowResponse | src/oai.rs:203-208 | each edit is made at a chunk with content and shows the whole response accumulated up to that chunk |
| Stream.RunEditsWhenDue | src/oai.rs:203-208 | a chunk with content arriving once the interval since `last_update` has passed adds exactly one edit, showing the concatenation of all fragments up to it, at its time |
| Stream.EditsArePrefixes | src/oai.rs:204-208 | every intermediate edit shows a prefix of the final response |
| Stream.EditRateBound | src/oai.rs:200-212 | after n edits, the last is at least n intervals after the stream start |
| Stream.SpacedEditsBound | src/oai.rs:206-207 | spaced edits put the n-th at least n intervals after the start |
| Stream.StreamResponse | src/oai.rs:199-239 | response is the concatenation of the fragments up to the finish chunk; edits are those of the throttle; a final edit of response plus footer exists exactly when some chunk has a finish reason; edit outcomes change nothing |
| Store.ConversationStore.constructor | src/main.rs:118 | the store starts with no channel |
| Store.ConversationStore.Append | src/oai.rs:144-147 | the channel's list (created empty if absent) grows by the message at its end; other channels unchanged |
| Store.ConversationStore.Snapshot | src/oai.rs:148 | returns the channel's current list, empty for an unknown channel |
| Store.ConversationStore.Clear | src/main.rs:64-66 | the channel's list becomes empty and its entry exists; every other channel keeps its entry and list |
| Oai.ProcessMessage | src/oai.rs:111-242 | the user line is appended before the snapshot; the submitted list is the window of the old history plus that line; on a finish reason exactly one User message holding the response (footer excluded) is appended, otherwise nothing more |
| Bot.Split | src/main.rs:84 | splitting gives at least one piece and no piece contains a comma |
| Bot.JoinSplit | src/main.rs:84 | joining the pieces with commas gives the string back: nothing is lost, empty pieces included |
| Bot.SplitJoin | src/main.rs:84 | comma-free pieces joined and split again come back unchanged |
| Bot.SplitKeepsEmptyPieces | src/main.rs:84 | "," splits into two empty pieces, "" into one |
| Bot.AutorespondChannels | src/main.rs:82-86 | the channel list always has at least one piece |
| Bot.DefaultChannels | src/main.rs:82-83 | without the variable, the list is the single piece "-1302692329400041482" |
| Bot.DefaultRepliesOnlyToMentions | src/main.rs:82-92 | no decimal channel id equals the default piece, so without the variable only mentions get answers |
| Bot.ShouldReply | src/main.rs:88-92 | the reply rule `mentioned || (listed && !bot && !starts_with("~"))`: without a mention, a bot author or an unlisted channel gets no reply |
| Bot.MentionAlwaysReplies | src/main.rs:88-92 | a mention triggers a reply whatever the channel, author or prefix |
| Bot.UnmentionedReplyIff | src/main.rs:88-92 | without a mention, a reply happens exactly when the channel id equals one listed piece, the author is not a bot and the content does not start with "~" |
| Bot.Wack | src/main.rs:61-72 | the invoking channel's history is empty afterwards (entry created if missing), every other channel's history is unchanged, and the reset-message index lies in 0..18 |

## Left out

- Discord calls (the placeholder reply, edits, the typing indicator, the nickname lookup, command registration, the client) are network I/O. Edits appear only as the text and time of each attempt.
- The chat-completion client: stream creation and `try_next`. The stream is the given sequence of chunks.
- The tokenizer (`get_chat_completion_max_tokens` with the "o1-mini" table). It is the abstract `cost`.
- The panics of `expect`/`unwrap` and of the `todo!()` arms. A failing tokenizer, stream creation or stream read, an empty `choices`, array contents and Tool/Function messages are outside the model; `Chat.Message` has only text contents.
- `usize` arithmetic: `TOKEN_LIMIT - remaining` cannot go below zero when the tokenizer's context size is the limit. The model's costs are unbounded `nat`s, so a system message costlier than the limit is possible here though not in the code.
- Floating-point timing and footer formatting (`as_secs_f64`, `{:.3}`). The footer is an opaque string.
- The mutex and tokio concurrency. The store is used sequentially, so the interleaving of two requests in one channel is not modelled.
- Environment and dotenv loading, the `AI_MODEL` choice, `max_tokens: 1800`, the random number generator (the reset index is a nondeterministic choice in range), the text of the reset messages, and the `age` command.
- Spill-over of an overlong answer into a new message. The code has no such recovery; a failed edit is only logged.
