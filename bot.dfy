/**
 * The event handling of `src/main.rs` that the model covers: the `wack`
 * command, which forgets the invoking channel's history, and the rule that
 * decides whether an incoming message gets an answer.
 */
module Bot {
  import opened Wrappers
  import opened Decimal
  import opened Store

  /** The channel list used when `AUTORESPOND_CHANNELS` is not set. */
  const DefaultAutorespond: string := "-1302692329400041482"

  /** The number of entries of `RESET_MESSAGES`. */
  const ResetMessageCount: nat := 18

  /** No part of `parts` contains `sep`. */
  predicate SepFree(parts: seq<string>, sep: char) {
    forall i, j :: 0 <= i < |parts| && 0 <= j < |parts[i]| ==> parts[i][j] != sep
  }

  /**
   * `str::split(sep)`: the pieces between separators, in order, empty pieces
   * included; a string without a separator is one piece.
   */
  function Split(s: string, sep: char): (parts: seq<string>)
    ensures |parts| >= 1
    ensures SepFree(parts, sep)
  {
    if s == [] then [""]
    else
      var rest := Split(s[1..], sep);
      if s[0] == sep then [""] + rest
      else [[s[0]] + rest[0]] + rest[1..]
  }

  /** The pieces put back together with one separator between neighbours. */
  function Join(parts: seq<string>, sep: char): string
    requires |parts| >= 1
  {
    if |parts| == 1 then parts[0] else parts[0] + [sep] + Join(parts[1..], sep)
  }

  /** Splitting loses nothing: joining the pieces gives the string back. */
  lemma {:induction false} JoinSplit(s: string, sep: char)
    ensures Join(Split(s, sep), sep) == s
  {
    if s != [] {
      var rest := Split(s[1..], sep);
      JoinSplit(s[1..], sep);
      if s[0] != sep && |rest| > 1 {
        assert ([[s[0]] + rest[0]] + rest[1..])[1..] == rest[1..];
      }
    }
  }

  lemma {:induction false} SplitNoSep(s: string, sep: char)
    requires sep !in s
    ensures Split(s, sep) == [s]
  {
    if s != [] {
      assert s[0] in s;
      assert forall c :: c in s[1..] ==> c in s;
      SplitNoSep(s[1..], sep);
      assert [s[0]] + s[1..] == s;
    }
  }

  lemma {:induction false} SplitAfterPiece(p: string, t: string, sep: char)
    requires forall i :: 0 <= i < |p| ==> p[i] != sep
    ensures Split(p + [sep] + t, sep) == [p] + Split(t, sep)
  {
    if p == [] {
      assert ([sep] + t)[1..] == t;
    } else {
      assert (p + [sep] + t)[1..] == p[1..] + [sep] + t;
      SplitAfterPiece(p[1..], t, sep);
      assert [p[0]] + p[1..] == p;
    }
  }

  /** Joining separator-free pieces and splitting again gives the same pieces, empty ones included. */
  lemma {:induction false} SplitJoin(parts: seq<string>, sep: char)
    requires |parts| >= 1 && SepFree(parts, sep)
    ensures Split(Join(parts, sep), sep) == parts
  {
    assert forall i :: 0 <= i < |parts[0]| ==> parts[0][i] != sep;
    assert sep !in parts[0];
    if |parts| == 1 {
      SplitNoSep(parts[0], sep);
    } else {
      assert SepFree(parts[1..], sep) by {
        forall i, j | 0 <= i < |parts[1..]| && 0 <= j < |parts[1..][i]|
          ensures parts[1..][i][j] != sep
        {
          assert parts[1..][i] == parts[i + 1];
        }
      }
      SplitJoin(parts[1..], sep);
      SplitAfterPiece(parts[0], Join(parts[1..], sep), sep);
    }
  }

  /** The autorespond channel list: the variable's value, or the default, split at commas. */
  function AutorespondChannels(env: Option<string>): (channels: seq<string>)
    ensures |channels| >= 1
  {
    Split(env.GetOr(DefaultAutorespond), ',')
  }

  /** `str::starts_with`. */
  predicate StartsWith(s: string, prefix: string) {
    prefix <= s
  }

  /**
   * The reply rule of `Handler::message`:
   * `mentioned || (listed && !bot && !content.starts_with("~"))`.
   */
  function ShouldReply(mentioned: bool, channels: seq<string>, channelId: nat, authorIsBot: bool,
                       content: string): (reply: bool)
    ensures !mentioned && authorIsBot ==> !reply
    ensures !mentioned && DecimalString(channelId) !in channels ==> !reply
  {
    mentioned || (DecimalString(channelId) in channels && !authorIsBot && !StartsWith(content, "~"))
  }

  /** A mention is enough, whatever the channel, the author or the prefix. */
  lemma MentionAlwaysReplies(channels: seq<string>, channelId: nat, authorIsBot: bool, content: string)
    ensures ShouldReply(true, channels, channelId, authorIsBot, content)
  {
  }

  /**
   * Without a mention the handler answers exactly when the channel's id is
   * one of the listed pieces, the author is no bot and the content does not
   * start with `~`.
   */
  lemma UnmentionedReplyIff(channels: seq<string>, channelId: nat, authorIsBot: bool, content: string)
    ensures ShouldReply(false, channels, channelId, authorIsBot, content) <==>
      (exists i :: 0 <= i < |channels| && channels[i] == DecimalString(channelId))
      && !authorIsBot && !(|content| > 0 && content[0] == '~')
  {
    if |content| > 0 && content[0] == '~' {
      assert StartsWith(content, "~");
    }
  }

  /** Without `AUTORESPOND_CHANNELS` the list is the single default piece. */
  lemma DefaultChannels()
    ensures AutorespondChannels(None) == [DefaultAutorespond]
  {
    SplitNoSep(DefaultAutorespond, ',');
  }

  /**
   * The default piece starts with `-`, which no decimal channel id does, so
   * without the variable only mentions are answered.
   */
  lemma DefaultRepliesOnlyToMentions(mentioned: bool, channelId: nat, authorIsBot: bool, content: string)
    ensures ShouldReply(mentioned, AutorespondChannels(None), channelId, authorIsBot, content) == mentioned
  {
    DefaultChannels();
    assert DecimalString(channelId)[0] != DefaultAutorespond[0];
  }

  /** Splitting keeps empty pieces: a lone comma gives two empty pieces. */
  lemma SplitKeepsEmptyPieces()
    ensures Split(",", ',') == ["", ""]
    ensures Split("", ',') == [""]
  {
    assert ","[1..] == "";
  }

  /**
   * The `wack` command: the invoking channel's history becomes empty (its
   * entry created if missing), other channels keep theirs, and a reset
   * message is picked at random, always within `RESET_MESSAGES`.
   */
  method Wack(store: ConversationStore, channelId: nat) returns (resetIndex: nat)
    modifies store
    ensures store.contexts == old(store.contexts)[DecimalString(channelId) := []]
    ensures store.History(DecimalString(channelId)) == []
    ensures forall other: nat :: other != channelId ==>
      store.History(DecimalString(other)) == old(store.History(DecimalString(other)))
    ensures resetIndex < ResetMessageCount
  {
    var key := DecimalString(channelId);
    store.Clear(key);
    forall other: nat | other != channelId
      ensures DecimalString(other) != key
    {
      DecimalStringInjective(other, channelId);
    }
    resetIndex :| 0 <= resetIndex < ResetMessageCount;
  }
}
