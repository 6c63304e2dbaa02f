/**
 * The chat messages of `src/oai.rs`: the request messages kept in a channel's
 * history and sent to the completion backend, and their conversion to the
 * tokenizer's message shape (`aoai_to_tiktoken`).
 */
module Chat {
  import opened Wrappers
  import opened Decimal

  /**
   * A request message with text content. The source's array-of-parts contents
   * and its Tool and Function messages end in `todo!()` and have no counterpart.
   */
  datatype Message =
    | System(text: string)
    | User(text: string)
    | Assistant(content: Option<string>)

  /** The tokenizer's message: a role name and optional content. */
  datatype TikMsg = TikMsg(role: string, content: Option<string>)

  /** The role names the tokenizer expects. */
  const SystemRole := "system"
  const UserRole := "user"
  const AssistantRole := "assistant"

  /** The inverse view: which request message a tokenizer message stands for. */
  function FromTiktoken(t: TikMsg): (m: Option<Message>)
    ensures m.Some? ==> t.role in {SystemRole, UserRole, AssistantRole}
  {
    if t.role == SystemRole && t.content.Some? then Some(System(t.content.value))
    else if t.role == UserRole && t.content.Some? then Some(User(t.content.value))
    else if t.role == AssistantRole then Some(Assistant(t.content))
    else None
  }

  /**
   * `aoai_to_tiktoken`: the role is renamed and the text passes through
   * unchanged, so the conversion loses nothing and can be undone.
   */
  function ToTiktoken(m: Message): (t: TikMsg)
    ensures FromTiktoken(t) == Some(m)
    ensures m.System? <==> t.role == SystemRole
    ensures m.User? <==> t.role == UserRole
    ensures m.Assistant? <==> t.role == AssistantRole
  {
    match m
    case System(text) => TikMsg(SystemRole, Some(text))
    case User(text) => TikMsg(UserRole, Some(text))
    case Assistant(content) => TikMsg(AssistantRole, content)
  }

  /** Two messages with the same tokenizer view are the same message. */
  lemma ToTiktokenInjective(m: Message, n: Message)
    requires ToTiktoken(m) == ToTiktoken(n)
    ensures m == n
  {
    assert Some(m) == FromTiktoken(ToTiktoken(m)) == FromTiktoken(ToTiktoken(n)) == Some(n);
  }

  /**
   * The text of the user message built for an incoming Discord message:
   * `"{nick} ({id}): {content}"`.
   */
  function UserLine(nick: string, authorId: nat, content: string): (line: string)
    ensures |line| == |nick| + |DecimalString(authorId)| + |content| + 5
    ensures line[..|nick|] == nick
    ensures line[|nick|..|nick| + 2] == " ("
    ensures line[|nick| + 2..|nick| + 2 + |DecimalString(authorId)|] == DecimalString(authorId)
    ensures line[|nick| + 2 + |DecimalString(authorId)|..|line| - |content|] == "): "
    ensures line[|line| - |content|..] == content
  {
    nick + " (" + DecimalString(authorId) + "): " + content
  }

  /** The speaker shown is the guild nickname when the lookup gives one, else the account name. */
  function Speaker(nick: Option<string>, accountName: string): (s: string)
    ensures nick.Some? ==> s == nick.value
    ensures nick.None? ==> s == accountName
  {
    nick.GetOr(accountName)
  }
}
