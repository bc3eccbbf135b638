/**
 * What `ASR.upload` and `ASR.polling` make of the transport's replies. The
 * transport is a script of outcomes, one per call; `Poll` is the meaning of
 * the polling loop over such a script.
 */
module Polling {
  import opened Wrappers
  import opened Transcript

  /** A status that makes `polling` sleep and ask again. */
  predicate IsPending(status: string) { status == "RUNNING" || status == "QUEUEING" }

  /** A reply that ends `polling`: any status but RUNNING and QUEUEING, failures included. */
  predicate IsTerminal(o: Outcome) { o.Reply? && !IsPending(o.response.statusText) }

  /** A reply after which `polling` sleeps. */
  predicate IsWait(o: Outcome) { o.Reply? && IsPending(o.response.statusText) }

  /** `upload` succeeds on this outcome: a reply whose status is SUCCESS. */
  predicate Accepted(o: Outcome) { o.Reply? && o.response.statusText == "SUCCESS" }

  /**
   * The result `polling` stores (None while no terminal reply came), the
   * number of sleeps, and the number of outcomes it consumed.
   */
  datatype Trace = Trace(result: Option<Response>, sleeps: nat, consumed: nat)

  /**
   * The polling loop over a script: a fault retries at once, a pending reply
   * sleeps and retries, any other reply is the result. When the script runs
   * out first the loop is still waiting.
   */
  function Poll(script: seq<Outcome>): (t: Trace)
    ensures t.consumed <= |script|
  {
    if script == [] then Trace(None, 0, 0)
    else if IsTerminal(script[0]) then Trace(Some(script[0].response), 0, 1)
    else
      var t := Poll(script[1..]);
      Trace(t.result, t.sleeps + (if IsWait(script[0]) then 1 else 0), t.consumed + 1)
  }

  /** The number of pending replies in s. */
  function Waits(s: seq<Outcome>): nat
  {
    if s == [] then 0 else (if IsWait(s[0]) then 1 else 0) + Waits(s[1..])
  }

  /**
   * `polling` stops exactly at the first terminal reply and stores it, after
   * one sleep per pending reply before it; with no terminal reply it consumes
   * the whole script, sleeping once per pending reply.
   */
  lemma {:induction false} PollSpec(s: seq<Outcome>)
    ensures var t := Poll(s);
      t.consumed <= |s|
      && (t.result.Some? <==> exists i :: 0 <= i < |s| && IsTerminal(s[i]))
      && (t.result.Some? ==>
        t.consumed >= 1 && IsTerminal(s[t.consumed - 1]) && t.result.value == s[t.consumed - 1].response
        && (forall j :: 0 <= j < t.consumed - 1 ==> !IsTerminal(s[j]))
        && t.sleeps == Waits(s[..t.consumed - 1]))
      && (t.result.None? ==> t.consumed == |s| && t.sleeps == Waits(s))
  {
    if s != [] && !IsTerminal(s[0]) {
      var t := Poll(s[1..]);
      PollSpec(s[1..]);
      assert forall i :: 1 <= i < |s| ==> s[i] == s[1..][i - 1];
      if t.result.Some? {
        var n := t.consumed;
        assert s[..n + 1 - 1][1..] == s[1..][..n - 1];
      }
    }
  }

  /** The replies of s, faults dropped. */
  function Replies(s: seq<Outcome>): seq<Outcome>
  {
    if s == [] then [] else (if s[0].Fault? then [] else [s[0]]) + Replies(s[1..])
  }

  /**
   * Faults change nothing but the number of calls: with them dropped from the
   * script, `polling` stores the same result after the same number of sleeps.
   */
  lemma {:induction false} PollIgnoresFaults(s: seq<Outcome>)
    ensures Poll(Replies(s)).result == Poll(s).result
    ensures Poll(Replies(s)).sleeps == Poll(s).sleeps
  {
    if s != [] {
      PollIgnoresFaults(s[1..]);
      if !s[0].Fault? {
        assert Replies(s) == [s[0]] + Replies(s[1..]);
        assert Replies(s)[1..] == Replies(s[1..]);
      } else {
        assert Replies(s) == [] + Replies(s[1..]) == Replies(s[1..]);
      }
    }
  }

  /** Two QUEUEING replies and then SUCCESS: two sleeps, and the third reply is the result. */
  lemma QueueingExample(q1: Response, q2: Response, done: Response)
    requires q1.statusText == "QUEUEING" && q2.statusText == "QUEUEING" && done.statusText == "SUCCESS"
    ensures Poll([Reply(q1), Reply(q2), Reply(done)]) == Trace(Some(done), 2, 3)
  {
    var s := [Reply(q1), Reply(q2), Reply(done)];
    assert s[1..] == [Reply(q2), Reply(done)];
    assert s[1..][1..] == [Reply(done)];
    assert "SUCCESS" != "RUNNING" && "SUCCESS" != "QUEUEING";
    assert Poll(s[1..][1..]) == Trace(Some(done), 0, 1);
    assert Poll(s[1..]) == Trace(Some(done), 1, 2);
  }
}
