/**
 * The streaming loop of `process_message`: every chunk's content fragment is
 * appended to `response`; an intermediate edit of the placeholder reply,
 * showing all of `response`, is attempted only once `UPDATE_INTERVAL` has
 * passed since `last_update`; the chunk that carries a finish reason ends the
 * loop with one final edit of `response` plus the footer.
 *
 * Time is in milliseconds. Edit attempts may fail; a failure is only logged.
 */
module Stream {
  import opened Wrappers

  /** `UPDATE_INTERVAL`: one second. */
  const UpdateInterval: nat := 1000

  /**
   * The first choice of one streamed chunk: an optional content fragment,
   * whether a finish reason is set, and the time at which it was received.
   */
  datatype Chunk = Chunk(content: Option<string>, finished: bool, at: nat)

  /** An edit of the reply message: the text shown and when. */
  datatype Edit = Edit(text: string, at: nat)

  /** The variables the loop updates. */
  datatype StreamState = StreamState(response: string, lastUpdate: nat, edits: seq<Edit>)

  /** `Instant::elapsed`, which never goes below zero. */
  function Elapsed(since: nat, now: nat): (e: nat)
    ensures now >= since ==> e + since == now
    ensures now < since ==> e == 0
  {
    if now >= since then now - since else 0
  }

  /** The fragment a chunk contributes: its content, or nothing. */
  function Fragment(c: Chunk): string {
    c.content.GetOr("")
  }

  /** The concatenation of the fragments of `cs`, in order. */
  function Concat(cs: seq<Chunk>): string {
    if cs == [] then "" else Fragment(cs[0]) + Concat(cs[1..])
  }

  /** One iteration of the loop body, before the finish check. */
  function Step(s: StreamState, c: Chunk): (t: StreamState)
    ensures t.response == s.response + Fragment(c)
    ensures t.edits == s.edits || t.edits == s.edits + [Edit(t.response, c.at)]
    ensures t.edits != s.edits <==> c.content.Some? && Elapsed(s.lastUpdate, c.at) >= UpdateInterval
    ensures t.edits != s.edits ==> t.lastUpdate == c.at
    ensures t.edits == s.edits ==> t.lastUpdate == s.lastUpdate
  {
    match c.content
    case None => s
    case Some(fragment) =>
      var response := s.response + fragment;
      if Elapsed(s.lastUpdate, c.at) >= UpdateInterval then
        StreamState(response, c.at, s.edits + [Edit(response, c.at)])
      else
        StreamState(response, s.lastUpdate, s.edits)
  }

  /** The loop's variables after the chunks `cs`, starting at time `start`. */
  function Run(start: nat, cs: seq<Chunk>): (r: StreamState)
    ensures |r.edits| <= |cs|
    ensures r.edits == [] ==> r.lastUpdate == start
  {
    if cs == [] then StreamState("", start, [])
    else Step(Run(start, cs[..|cs| - 1]), cs[|cs| - 1])
  }

  /**
   * The number of chunks the loop reads: up to and including the first that
   * carries a finish reason, or all of them.
   */
  function Consumed(cs: seq<Chunk>): (n: nat)
    ensures n <= |cs|
    ensures forall j :: 0 <= j < n - 1 ==> !cs[j].finished
    ensures n < |cs| ==> n > 0 && cs[n - 1].finished
    ensures n == |cs| && n > 0 && !cs[n - 1].finished ==> forall j :: 0 <= j < |cs| ==> !cs[j].finished
  {
    if cs == [] then 0
    else if cs[0].finished then 1
    else 1 + Consumed(cs[1..])
  }

  /** Whether some chunk carries a finish reason. */
  predicate Finishes(cs: seq<Chunk>) {
    exists j :: 0 <= j < |cs| && cs[j].finished
  }

  /** The text of the final edit: the response followed by the footer. */
  function FinalText(response: string, footer: string): (t: string)
    ensures |t| == |response| + |footer|
    ensures t[..|response|] == response && t[|response|..] == footer
  {
    response + footer
  }

  lemma {:induction false} ConcatSnoc(cs: seq<Chunk>, c: Chunk)
    ensures Concat(cs + [c]) == Concat(cs) + Fragment(c)
  {
    if cs != [] {
      assert (cs + [c])[1..] == cs[1..] + [c];
      ConcatSnoc(cs[1..], c);
    }
  }

  /**
   * Streaming fidelity: the response is the in-order concatenation of every
   * chunk's fragment; chunks without content contribute nothing.
   */
  lemma {:induction false} RunResponse(start: nat, cs: seq<Chunk>)
    ensures Run(start, cs).response == Concat(cs)
  {
    if cs != [] {
      var init := cs[..|cs| - 1];
      RunResponse(start, init);
      ConcatSnoc(init, cs[|cs| - 1]);
      assert init + [cs[|cs| - 1]] == cs;
    }
  }

  /** The time before the `k`-th edit: the stream start, or the previous edit. */
  function PreviousEditTime(start: nat, edits: seq<Edit>, k: nat): nat
    requires k <= |edits|
  {
    if k == 0 then start else edits[k - 1].at
  }

  /** Every edit comes at least `UPDATE_INTERVAL` after the one before it (the first, after `start`). */
  predicate Spaced(start: nat, edits: seq<Edit>) {
    forall k {:trigger PreviousEditTime(start, edits, k)} :: 0 <= k < |edits| ==> edits[k].at >= PreviousEditTime(start, edits, k) + UpdateInterval
  }

  /**
   * Throttle: every edit comes at least `UPDATE_INTERVAL` after the previous
   * one (the first after the stream start), and `last_update` is the time
   * of the latest edit.
   */
  lemma {:induction false} RunEditsSpaced(start: nat, cs: seq<Chunk>)
    ensures Run(start, cs).lastUpdate == PreviousEditTime(start, Run(start, cs).edits, |Run(start, cs).edits|)
    ensures Spaced(start, Run(start, cs).edits)
  {
    if cs != [] {
      var s := Run(start, cs[..|cs| - 1]);
      var c := cs[|cs| - 1];
      RunEditsSpaced(start, cs[..|cs| - 1]);
      assert Run(start, cs) == Step(s, c);
      StepKeepsSpaced(start, s, c);
    }
  }

  lemma StepKeepsSpaced(start: nat, s: StreamState, c: Chunk)
    requires s.lastUpdate == PreviousEditTime(start, s.edits, |s.edits|)
    requires Spaced(start, s.edits)
    ensures Step(s, c).lastUpdate == PreviousEditTime(start, Step(s, c).edits, |Step(s, c).edits|)
    ensures Spaced(start, Step(s, c).edits)
  {
    var t := Step(s, c);
    if t.edits != s.edits {
      assert t.edits == s.edits + [Edit(t.response, c.at)];
      forall k | 0 <= k < |t.edits|
        ensures t.edits[k].at >= PreviousEditTime(start, t.edits, k) + UpdateInterval
      {
        if k < |s.edits| {
          assert PreviousEditTime(start, t.edits, k) == PreviousEditTime(start, s.edits, k);
        }
      }
    }
  }

  /**
   * Each edit shows the whole response accumulated when it was made: the
   * concatenation of the fragments up to a chunk that has content and was
   * received at the edit's time.
   */
  lemma {:induction false} RunEditsShowResponse(start: nat, cs: seq<Chunk>, k: nat)
    requires k < |Run(start, cs).edits|
    ensures exists j :: (0 <= j < |cs| && cs[j].content.Some? && cs[j].at == Run(start, cs).edits[k].at
                         && Run(start, cs).edits[k].text == Concat(cs[..j + 1]))
  {
    var init := cs[..|cs| - 1];
    assert cs != [];
    var c := cs[|cs| - 1];
    assert init + [c] == cs;
    assert cs[..|cs|] == cs;
    if k < |Run(start, init).edits| {
      RunEditsShowResponse(start, init, k);
      var j :| 0 <= j < |init| && init[j].content.Some? && init[j].at == Run(start, init).edits[k].at
        && Run(start, init).edits[k].text == Concat(init[..j + 1]);
      assert init[..j + 1] == cs[..j + 1];
    } else {
      RunResponse(start, cs);
      assert cs[|cs| - 1].content.Some?;
    }
  }

  /**
   * The throttle does edit: a chunk with content that arrives once the
   * interval since `last_update` has passed adds one edit, showing the
   * concatenation of all fragments so far, at the chunk's time.
   */
  lemma RunEditsWhenDue(start: nat, cs: seq<Chunk>, j: nat)
    requires j < |cs| && cs[j].content.Some?
    requires Elapsed(Run(start, cs[..j]).lastUpdate, cs[j].at) >= UpdateInterval
    ensures Run(start, cs[..j + 1]).edits == Run(start, cs[..j]).edits + [Edit(Concat(cs[..j + 1]), cs[j].at)]
  {
    assert cs[..j + 1][..j] == cs[..j];
    RunResponse(start, cs[..j + 1]);
  }

  /** Edits only grow the shown text: each is a prefix of the final response. */
  lemma EditsArePrefixes(start: nat, cs: seq<Chunk>, k: nat)
    requires k < |Run(start, cs).edits|
    ensures Run(start, cs).edits[k].text <= Run(start, cs).response
  {
    RunEditsShowResponse(start, cs, k);
    var j :| 0 <= j < |cs| && cs[j].content.Some? && cs[j].at == Run(start, cs).edits[k].at
      && Run(start, cs).edits[k].text == Concat(cs[..j + 1]);
    ConcatPrefix(cs, j + 1);
    RunResponse(start, cs);
  }

  lemma {:induction false} ConcatPrefix(cs: seq<Chunk>, n: nat)
    requires n <= |cs|
    ensures Concat(cs[..n]) <= Concat(cs)
  {
    if n > 0 {
      assert cs[..n][1..] == cs[1..][..n - 1];
      ConcatPrefix(cs[1..], n - 1);
    }
  }

  /**
   * Rate bound: after `n` edits at least `n` intervals have passed since
   * the stream start.
   */
  lemma EditRateBound(start: nat, cs: seq<Chunk>)
    requires |Run(start, cs).edits| > 0
    ensures var e := Run(start, cs).edits;
      e[|e| - 1].at >= start + |e| * UpdateInterval
  {
    var e := Run(start, cs).edits;
    RunEditsSpaced(start, cs);
    SpacedEditsBound(start, e, |e|);
  }

  lemma {:induction false} SpacedEditsBound(start: nat, e: seq<Edit>, n: nat)
    requires 0 < n <= |e|
    requires Spaced(start, e)
    ensures e[n - 1].at >= start + n * UpdateInterval
  {
    assert e[n - 1].at >= PreviousEditTime(start, e, n - 1) + UpdateInterval;
    if n > 1 {
      SpacedEditsBound(start, e, n - 1);
      assert (n - 1) * UpdateInterval + UpdateInterval == n * UpdateInterval;
    }
  }

  /**
   * The `while let` loop. `attempts` logs the outcome of every edit attempt
   * (intermediate edits, then the final one); no outcome affects the state.
   */
  method StreamResponse(start: nat, chunks: seq<Chunk>, footer: string)
    returns (response: string, edits: seq<Edit>, finalEdit: Option<string>, consumed: nat, attempts: seq<bool>)
    ensures consumed == Consumed(chunks)
    ensures response == Run(start, chunks[..consumed]).response
    ensures edits == Run(start, chunks[..consumed]).edits
    ensures response == Concat(chunks[..consumed])
    ensures Finishes(chunks) <==> finalEdit.Some?
    ensures finalEdit.Some? ==> finalEdit.value == FinalText(response, footer)
    ensures |attempts| == |edits| + (if finalEdit.Some? then 1 else 0)
  {
    response := "";
    var lastUpdate := start;
    edits := [];
    attempts := [];
    finalEdit := None;
    var i := 0;
    while i < |chunks|
      invariant 0 <= i <= |chunks|
      invariant forall j :: 0 <= j < i ==> !chunks[j].finished
      invariant Run(start, chunks[..i]) == StreamState(response, lastUpdate, edits)
      invariant Consumed(chunks) == i + Consumed(chunks[i..])
      invariant |attempts| == |edits|
    {
      var chunk := chunks[i];
      assert chunks[..i + 1][..i] == chunks[..i];
      assert chunks[i..][1..] == chunks[i + 1..];
      if chunk.content.Some? {
        response := response + chunk.content.value;
        if Elapsed(lastUpdate, chunk.at) >= UpdateInterval {
          lastUpdate := chunk.at;
          var ok: bool := *;
          edits := edits + [Edit(response, chunk.at)];
          attempts := attempts + [ok];
        }
      }
      if chunk.finished {
        var ok: bool := *;
        finalEdit := Some(FinalText(response, footer));
        attempts := attempts + [ok];
        i := i + 1;
        break;
      }
      i := i + 1;
    }
    consumed := i;
    if finalEdit.None? {
      assert chunks[..i] == chunks;
    }
    RunResponse(start, chunks[..consumed]);
  }
}
