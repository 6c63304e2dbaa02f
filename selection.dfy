/**
 * Context-window selection in `process_message`: walk the channel history
 * newest first, keep messages while the running token count stays within
 * `TOKEN_LIMIT`, stop at the first one that does not fit, then put the system
 * message first and the kept messages back in chronological order.
 */
module Selection {
  import opened Chat

  const TokenLimit: nat := 128000

  /**
   * The token cost of one message. `cost` stands for the tokenizer: what
   * `TOKEN_LIMIT - get_chat_completion_max_tokens(..)` computes for the
   * converted message.
   */
  function Cost(cost: TikMsg -> nat, m: Message): nat {
    cost(ToTiktoken(m))
  }

  /** The summed cost of a list of messages. */
  function Total(cost: TikMsg -> nat, s: seq<Message>): nat {
    if s == [] then 0 else Cost(cost, s[0]) + Total(cost, s[1..])
  }

  /** The last `k` messages of `h`. */
  function Suffix(h: seq<Message>, k: nat): seq<Message>
    requires k <= |h|
  {
    h[|h| - k..]
  }

  /**
   * How many of the newest messages of `h` the loop keeps when `used` tokens
   * are already counted: it takes the newest message while it fits and stops
   * at the first that does not.
   */
  function Kept(cost: TikMsg -> nat, h: seq<Message>, used: nat): (k: nat)
    ensures k <= |h|
    decreases |h|
  {
    if h == [] then 0
    else
      var c := Cost(cost, h[|h| - 1]);
      if used + c > TokenLimit then 0 else 1 + Kept(cost, h[..|h| - 1], used + c)
  }

  /** The submitted list: the system message, then the kept trailing messages in order. */
  function Window(cost: TikMsg -> nat, h: seq<Message>, sys: Message): (w: seq<Message>)
    ensures 1 <= |w| <= |h| + 1 && w[0] == sys
    ensures w[1..] == Suffix(h, |w| - 1)
  {
    [sys] + Suffix(h, Kept(cost, h, Cost(cost, sys)))
  }

  /** Reversal of a sequence (`Vec::reverse`). */
  function Reverse<T>(s: seq<T>): (r: seq<T>)
    ensures |r| == |s|
  {
    if s == [] then [] else Reverse(s[1..]) + [s[0]]
  }

  lemma {:induction false} ReverseSnoc<T>(s: seq<T>, x: T)
    ensures Reverse(s + [x]) == [x] + Reverse(s)
  {
    if s != [] {
      assert (s + [x])[1..] == s[1..] + [x];
      ReverseSnoc(s[1..], x);
    }
  }

  lemma {:induction false} ReverseReverse<T>(s: seq<T>)
    ensures Reverse(Reverse(s)) == s
  {
    if s != [] {
      ReverseSnoc(Reverse(s[1..]), s[0]);
      ReverseReverse(s[1..]);
    }
  }

  /**
   * The selection loop of `process_message`. `collected` is `final_messages`
   * before the system message is pushed and the vector reversed.
   */
  method SelectWindow(cost: TikMsg -> nat, messages: seq<Message>, sys: Message) returns (final: seq<Message>)
    ensures final == Window(cost, messages, sys)
    ensures |final| >= 1 && final[0] == sys
    ensures final[1..] == Suffix(messages, |final| - 1)
  {
    var collected: seq<Message> := [];
    var sysTokens := Cost(cost, sys);
    var current: nat := sysTokens;
    var i := |messages|;
    assert messages[..i] == messages;
    while i > 0
      invariant 0 <= i <= |messages|
      invariant collected == Reverse(messages[i..])
      invariant Kept(cost, messages, sysTokens) == (|messages| - i) + Kept(cost, messages[..i], current)
    {
      var m := messages[i - 1];
      var msgTokens := Cost(cost, m);
      assert messages[..i][..i - 1] == messages[..i - 1];
      if current + msgTokens > TokenLimit {
        break;
      }
      assert messages[i - 1..][1..] == messages[i..];
      collected := collected + [m];
      current := current + msgTokens;
      i := i - 1;
    }
    // On both ways out of the loop, nothing more of messages[..i] is kept.
    assert Kept(cost, messages[..i], current) == 0;
    final := collected + [sys];
    ReverseSnoc(collected, sys);
    ReverseReverse(messages[i..]);
    final := Reverse(final);
  }

  lemma {:induction false} TotalSnoc(cost: TikMsg -> nat, s: seq<Message>, m: Message)
    ensures Total(cost, s + [m]) == Total(cost, s) + Cost(cost, m)
  {
    if s != [] {
      assert (s + [m])[1..] == s[1..] + [m];
      TotalSnoc(cost, s[1..], m);
    }
  }

  /** Taking one more (older) message never lowers the cost of a trailing run. */
  lemma {:induction false} TotalSuffixMonotone(cost: TikMsg -> nat, h: seq<Message>, j: nat, k: nat)
    requires j <= k <= |h|
    ensures Total(cost, Suffix(h, j)) <= Total(cost, Suffix(h, k))
    decreases k - j
  {
    if j < k {
      assert Suffix(h, j + 1) == [h[|h| - j - 1]] + Suffix(h, j);
      assert Suffix(h, j + 1)[1..] == Suffix(h, j);
      TotalSuffixMonotone(cost, h, j + 1, k);
    }
  }

  /** Unfolding `Kept` by one message: the kept run grows at its old end. */
  lemma SuffixStep(h: seq<Message>, k: nat)
    requires 0 < |h| && k <= |h| - 1
    ensures Suffix(h, k + 1) == Suffix(h[..|h| - 1], k) + [h[|h| - 1]]
  {
  }

  lemma {:induction false} KeptWithinBudget(cost: TikMsg -> nat, h: seq<Message>, used: nat)
    requires used <= TokenLimit
    ensures used + Total(cost, Suffix(h, Kept(cost, h, used))) <= TokenLimit
    decreases |h|
  {
    if h != [] {
      var c := Cost(cost, h[|h| - 1]);
      if used + c <= TokenLimit {
        var h' := h[..|h| - 1];
        var k' := Kept(cost, h', used + c);
        assert Kept(cost, h, used) == k' + 1;
        KeptWithinBudget(cost, h', used + c);
        SuffixStep(h, k');
        TotalSnoc(cost, Suffix(h', k'), h[|h| - 1]);
        assert Total(cost, Suffix(h, k' + 1)) == Total(cost, Suffix(h', k')) + c;
      }
    }
  }

  lemma {:induction false} KeptMaximal(cost: TikMsg -> nat, h: seq<Message>, used: nat)
    requires Kept(cost, h, used) < |h|
    ensures used + Total(cost, Suffix(h, Kept(cost, h, used) + 1)) > TokenLimit
    decreases |h|
  {
    var c := Cost(cost, h[|h| - 1]);
    var h' := h[..|h| - 1];
    if used + c > TokenLimit {
      assert Kept(cost, h, used) == 0;
      assert Suffix(h, 1) == [h[|h| - 1]];
      assert Suffix(h, 1)[1..] == [];
    } else {
      var k' := Kept(cost, h', used + c);
      assert Kept(cost, h, used) == k' + 1;
      KeptMaximal(cost, h', used + c);
      SuffixStep(h, k' + 1);
      TotalSnoc(cost, Suffix(h', k' + 1), h[|h| - 1]);
      assert Total(cost, Suffix(h, k' + 2)) == Total(cost, Suffix(h', k' + 1)) + c;
    }
  }

  /**
   * Budget bound: when the system message fits on its own, the system
   * message and the kept messages together stay within `TOKEN_LIMIT`.
   */
  lemma WindowWithinBudget(cost: TikMsg -> nat, h: seq<Message>, sys: Message)
    requires Cost(cost, sys) <= TokenLimit
    ensures Total(cost, Window(cost, h, sys)) <= TokenLimit
  {
    var w := Window(cost, h, sys);
    KeptWithinBudget(cost, h, Cost(cost, sys));
    assert w[1..] == Suffix(h, Kept(cost, h, Cost(cost, sys)));
  }

  /** A system message that alone exceeds the limit is still sent, and alone. */
  lemma WindowOverBudgetSystem(cost: TikMsg -> nat, h: seq<Message>, sys: Message)
    requires Cost(cost, sys) > TokenLimit
    ensures Window(cost, h, sys) == [sys]
  {
    if h != [] {
      assert Cost(cost, sys) + Cost(cost, h[|h| - 1]) > TokenLimit;
    }
  }

  /**
   * Greedy maximality: when some history is left out, adding the next-older
   * message to what was sent would exceed `TOKEN_LIMIT`.
   */
  lemma WindowMaximal(cost: TikMsg -> nat, h: seq<Message>, sys: Message)
    requires |Window(cost, h, sys)| - 1 < |h|
    ensures Cost(cost, sys) + Total(cost, Suffix(h, |Window(cost, h, sys)|)) > TokenLimit
  {
    KeptMaximal(cost, h, Cost(cost, sys));
  }

  /**
   * The selection is the longest trailing run of the history that fits
   * beside the system message: a trailing run of `j >= 1` messages fits
   * exactly when it is no longer than the one selected.
   */
  lemma WindowLongestFit(cost: TikMsg -> nat, h: seq<Message>, sys: Message, j: nat)
    requires 1 <= j <= |h|
    ensures Cost(cost, sys) + Total(cost, Suffix(h, j)) <= TokenLimit
        <==> j <= |Window(cost, h, sys)| - 1
  {
    var u := Cost(cost, sys);
    var k := Kept(cost, h, u);
    if j <= k {
      // then k >= 1, so the system message fits on its own
      if u > TokenLimit { WindowOverBudgetSystem(cost, h, sys); assert false; }
      KeptWithinBudget(cost, h, u);
      TotalSuffixMonotone(cost, h, j, k);
    } else {
      KeptMaximal(cost, h, u);
      TotalSuffixMonotone(cost, h, k + 1, j);
    }
  }

  /** An empty history sends the system message alone. */
  lemma WindowOfEmptyHistory(cost: TikMsg -> nat, sys: Message)
    ensures Window(cost, [], sys) == [sys]
  {
  }

  /**
   * After `wack` the next request's history is its own user line alone (it
   * is pushed before the snapshot); it is sent after the system message
   * whenever the two fit together.
   */
  lemma WindowAfterReset(cost: TikMsg -> nat, sys: Message, u: Message)
    requires Cost(cost, sys) + Cost(cost, u) <= TokenLimit
    ensures Window(cost, [u], sys) == [sys, u]
  {
    var h := [u];
    assert h[|h| - 1] == u && h[..|h| - 1] == [];
    assert Kept(cost, [], Cost(cost, sys) + Cost(cost, u)) == 0;
    assert Kept(cost, h, Cost(cost, sys)) == 1;
    assert Suffix(h, 1) == h;
  }
}
