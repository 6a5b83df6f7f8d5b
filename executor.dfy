/**
 * The request executor: the `while` loop of `Main` that posts one batch
 * until it is answered. The HTTP replies the service would give are an input
 * sequence, consumed one per attempt; `Thread.Sleep` is recorded as a trace of
 * the requested milliseconds.
 */
module Executor {
  import opened Wrappers
  import opened Messages
  import opened Correlator

  const MaxAttempts: nat := 10
  /** The sleep after a counted failure (3000 ms, although the comment beside it says 5000). */
  const RetryDelayMs: nat := 3000
  /** The courtesy sleep after a batch was answered with 200. */
  const CourtesyDelayMs: nat := 3000

  const StatusOK: int := 200
  const StatusForbidden: int := 403
  const StatusUnavailable: int := 503

  /**
   * One HTTP reply: its status, the `Retry-After` delta in milliseconds when
   * the header is present, and the deserialised body (read only for 200).
   */
  datatype HttpReply = HttpReply(status: int, retryAfterMs: Option<nat>, items: seq<ResponseItem>)

  /** 503 with a `Retry-After` header: wait as told, the attempt is not counted. */
  predicate IsRetryAfter(r: HttpReply) {
    r.status == StatusUnavailable && r.retryAfterMs.Some?
  }

  /** Every status the loop retries after counting an attempt, 503 without `Retry-After` included. */
  predicate IsCounted(r: HttpReply) {
    !IsRetryAfter(r) && r.status != StatusForbidden && r.status != StatusOK
  }

  /** How a batch ends. */
  datatype BatchEnd =
    | Skipped            // empty batch: the loop guard is false at once, nothing is sent
    | Done               // answered with 200 and correlated
    | Failed             // ten counted failures: the batch is abandoned
    | Aborted            // 403: the API key is wrong, `Main` returns
    | Crashed(fault: Fault) // the correlator threw: the process ends
    | Exhausted          // the model's input ran out of replies

  /** A batch's end, the replies it consumed, the sleeps it asked for and the actions it performed. */
  datatype BatchRun = BatchRun(end: BatchEnd, consumed: nat, sleeps: seq<nat>, actions: seq<Action>)

  /** `b` preceded by `n` more consumed replies and the sleeps `s`. */
  function After(n: nat, s: seq<nat>, b: BatchRun): BatchRun {
    b.(consumed := n + b.consumed, sleeps := s + b.sleeps)
  }

  /**
   * The loop from an attempt counter `retry`, reading `replies` in order:
   * the reference definition the method `RunBatch` is proved against.
   */
  function Exec(files: seq<Entry>, requests: seq<RequestItem>, replies: seq<HttpReply>, retry: nat): (b: BatchRun)
    ensures b.consumed <= |replies|
    decreases |replies|
  {
    if !(retry < MaxAttempts && |requests| > 0) then
      BatchRun(if |requests| == 0 then Skipped else Failed, 0, [], [])
    else if |replies| == 0 then
      BatchRun(Exhausted, 0, [], [])
    else
      var reply := replies[0];
      if IsRetryAfter(reply) then
        After(1, [reply.retryAfterMs.value], Exec(files, requests, replies[1..], retry))
      else if reply.status == StatusForbidden then
        BatchRun(Aborted, 1, [], [])
      else if reply.status == StatusOK then
        var c := Correlate(files, requests, reply.items);
        if c.fault.Some? then BatchRun(Crashed(c.fault.value), 1, [], c.actions)
        else BatchRun(Done, 1, [CourtesyDelayMs], c.actions)
      else
        After(1, [RetryDelayMs], Exec(files, requests, replies[1..], retry + 1))
  }

  /**
   * The `while (retry < 10 && requestItems.Length > 0)` loop for one batch,
   * with `retry` starting at 0.
   */
  method RunBatch(files: seq<Entry>, requests: seq<RequestItem>, replies: seq<HttpReply>) returns (run: BatchRun)
    ensures run == Exec(files, requests, replies, 0)
    ensures |requests| == 0 ==> run == BatchRun(Skipped, 0, [], [])
  {
    var retry := 0;
    var pos := 0;
    var sleeps: seq<nat> := [];
    while retry < MaxAttempts && |requests| > 0
      invariant 0 <= pos <= |replies|
      invariant retry <= MaxAttempts
      invariant Exec(files, requests, replies, 0) == After(pos, sleeps, Exec(files, requests, replies[pos..], retry))
      decreases |replies| - pos
    {
      if pos == |replies| {
        return BatchRun(Exhausted, pos, sleeps, []);
      }
      var reply := replies[pos];
      assert replies[pos..][1..] == replies[pos + 1..];
      pos := pos + 1;
      if reply.status == StatusUnavailable && reply.retryAfterMs.Some? {
        sleeps := sleeps + [reply.retryAfterMs.value];
      } else if reply.status == StatusForbidden {
        return BatchRun(Aborted, pos, sleeps, []);
      } else if reply.status == StatusOK {
        var c := Correlate(files, requests, reply.items);
        if c.fault.Some? {
          return BatchRun(Crashed(c.fault.value), pos, sleeps, c.actions);
        }
        sleeps := sleeps + [CourtesyDelayMs];
        return BatchRun(Done, pos, sleeps, c.actions);
      } else {
        retry := retry + 1;
        sleeps := sleeps + [RetryDelayMs];
      }
    }
    run := BatchRun(if |requests| == 0 then Skipped else Failed, pos, sleeps, []);
  }

  /** The number of counted failures among `rs`. */
  function CountFailures(rs: seq<HttpReply>): nat {
    if |rs| == 0 then 0 else (if IsCounted(rs[0]) then 1 else 0) + CountFailures(rs[1..])
  }

  /** The sleep the loop performs after reading `r`, when the batch goes on or ends with `Done`. */
  function Delay(r: HttpReply): seq<nat> {
    if IsRetryAfter(r) then [r.retryAfterMs.value]
    else if r.status == StatusForbidden then []
    else if r.status == StatusOK then [CourtesyDelayMs]
    else [RetryDelayMs]
  }

  function Delays(rs: seq<HttpReply>): seq<nat> {
    if |rs| == 0 then [] else Delay(rs[0]) + Delays(rs[1..])
  }

  /** Ends after which the last consumed reply is the one that ended the batch. */
  predicate EndedByReply(e: BatchEnd) {
    e.Done? || e.Crashed? || e.Aborted?
  }

  /** The replies that were only retried: all consumed ones but the one that ended the batch. */
  function Retried(b: BatchRun): nat {
    if EndedByReply(b.end) && b.consumed > 0 then b.consumed - 1 else b.consumed
  }

  lemma PrefixStep(replies: seq<HttpReply>, n: nat)
    requires 0 < |replies| && n < |replies|
    ensures replies[..n + 1] == [replies[0]] + replies[1..][..n]
  {
  }

  /**
   * The attempt budget: a batch never sees more than ten counted failures,
   * and it is abandoned exactly when it has seen ten.
   */
  lemma {:induction false} ExecBudget(files: seq<Entry>, requests: seq<RequestItem>, replies: seq<HttpReply>, retry: nat)
    requires retry <= MaxAttempts && |requests| > 0
    ensures retry + CountFailures(replies[..Exec(files, requests, replies, retry).consumed]) <= MaxAttempts
    ensures Exec(files, requests, replies, retry).end == Failed <==>
            retry + CountFailures(replies[..Exec(files, requests, replies, retry).consumed]) == MaxAttempts
    decreases |replies|
  {
    var b := Exec(files, requests, replies, retry);
    if retry < MaxAttempts && |replies| > 0 {
      var reply := replies[0];
      if IsRetryAfter(reply) || IsCounted(reply) {
        var next := if IsCounted(reply) then retry + 1 else retry;
        ExecBudget(files, requests, replies[1..], next);
        PrefixStep(replies, b.consumed - 1);
      } else {
        assert replies[..b.consumed] == [reply];
      }
    }
  }

  /** Every reply a batch consumed before the one that ended it was a reply the loop retries after. */
  lemma {:induction false} ExecRetried(files: seq<Entry>, requests: seq<RequestItem>, replies: seq<HttpReply>, retry: nat)
    requires retry <= MaxAttempts && |requests| > 0
    ensures var b := Exec(files, requests, replies, retry);
      forall k :: 0 <= k < Retried(b) ==> IsRetryAfter(replies[k]) || IsCounted(replies[k])
    decreases |replies|
  {
    if retry < MaxAttempts && |replies| > 0 {
      var reply := replies[0];
      if IsRetryAfter(reply) || IsCounted(reply) {
        var next := if IsCounted(reply) then retry + 1 else retry;
        ExecRetried(files, requests, replies[1..], next);
        var b := Exec(files, requests, replies, retry);
        var b' := Exec(files, requests, replies[1..], next);
        assert Retried(b) == 1 + Retried(b');
        forall k | 1 <= k < Retried(b) ensures IsRetryAfter(replies[k]) || IsCounted(replies[k]) {
          assert replies[k] == replies[1..][k - 1];
        }
      }
    }
  }

  /**
   * How each end comes about: `Done` and `Crashed` follow a 200, whose body is the one handed
   * to the correlator, `Aborted` a 403; a batch that ran out of replies read
   * them all; only a 200 performs actions.
   */
  lemma {:induction false} ExecEnds(files: seq<Entry>, requests: seq<RequestItem>, replies: seq<HttpReply>, retry: nat)
    requires retry <= MaxAttempts && |requests| > 0
    ensures var b := Exec(files, requests, replies, retry);
      && b.end != Skipped
      && (EndedByReply(b.end) ==> b.consumed >= 1)
      && (b.end.Aborted? ==> replies[b.consumed - 1].status == StatusForbidden)
      && (b.end.Done? ==> replies[b.consumed - 1].status == StatusOK &&
                          Correlate(files, requests, replies[b.consumed - 1].items) == Correlation(b.actions, None))
      && (b.end.Crashed? ==> replies[b.consumed - 1].status == StatusOK &&
                             Correlate(files, requests, replies[b.consumed - 1].items) == Correlation(b.actions, Some(b.end.fault)))
      && (b.end.Exhausted? ==> b.consumed == |replies|)
      && (!(b.end.Done? || b.end.Crashed?) ==> b.actions == [])
    decreases |replies|
  {
    if retry < MaxAttempts && |replies| > 0 {
      var reply := replies[0];
      if IsRetryAfter(reply) || IsCounted(reply) {
        var next := if IsCounted(reply) then retry + 1 else retry;
        ExecEnds(files, requests, replies[1..], next);
      }
    }
  }

  /**
   * The sleep trace: 503 with `Retry-After` sleeps the server's delay, every
   * counted failure 3000 ms, a 200 then 3000 ms, a 403 nothing; a crash in the
   * correlator ends the process before the courtesy sleep.
   */
  lemma {:induction false} ExecSleeps(files: seq<Entry>, requests: seq<RequestItem>, replies: seq<HttpReply>, retry: nat)
    requires retry <= MaxAttempts && |requests| > 0
    ensures var b := Exec(files, requests, replies, retry);
      && (!b.end.Crashed? ==> b.sleeps == Delays(replies[..b.consumed]))
      && (b.end.Crashed? ==> b.sleeps + [CourtesyDelayMs] == Delays(replies[..b.consumed]))
    decreases |replies|
  {
    var b := Exec(files, requests, replies, retry);
    if retry < MaxAttempts && |replies| > 0 {
      var reply := replies[0];
      if IsRetryAfter(reply) || IsCounted(reply) {
        var next := if IsCounted(reply) then retry + 1 else retry;
        ExecSleeps(files, requests, replies[1..], next);
        PrefixStep(replies, b.consumed - 1);
      } else {
        assert replies[..b.consumed] == [reply];
      }
    }
  }

  /** `n` times the fixed retry delay. */
  function RetryDelays(n: nat): seq<nat> {
    if n == 0 then [] else [RetryDelayMs] + RetryDelays(n - 1)
  }

  /**
   * Counted failures exhaust the budget: from attempt `retry`, `10 - retry`
   * counted failures in a row abandon the batch after exactly that many
   * attempts, with a 3000 ms sleep after each and no call to the correlator.
   */
  lemma {:induction false} CountedFailuresAbandon(files: seq<Entry>, requests: seq<RequestItem>, replies: seq<HttpReply>, retry: nat)
    requires retry <= MaxAttempts && |requests| > 0
    requires MaxAttempts - retry <= |replies|
    requires forall k :: 0 <= k < MaxAttempts - retry ==> IsCounted(replies[k])
    ensures Exec(files, requests, replies, retry) == BatchRun(Failed, MaxAttempts - retry, RetryDelays(MaxAttempts - retry), [])
    decreases MaxAttempts - retry
  {
    if retry < MaxAttempts {
      assert IsCounted(replies[0]);
      CountedFailuresAbandon(files, requests, replies[1..], retry + 1);
    }
  }

  /** 503 replies that carry a `Retry-After` delay of `ds[k]` milliseconds. */
  function RetryAfterReplies(ds: seq<nat>): seq<HttpReply> {
    seq(|ds|, k requires 0 <= k < |ds| => HttpReply(StatusUnavailable, Some(ds[k]), []))
  }

  /**
   * 503 with `Retry-After` is free: any number of them is consumed, each
   * sleeping exactly the server's delay, and the attempt counter is where it
   * was. So the number of attempts of a batch has no bound.
   */
  lemma {:induction false} RetryAfterIsFree(files: seq<Entry>, requests: seq<RequestItem>, ds: seq<nat>, rest: seq<HttpReply>, retry: nat)
    requires retry < MaxAttempts && |requests| > 0
    ensures Exec(files, requests, RetryAfterReplies(ds) + rest, retry) == After(|ds|, ds, Exec(files, requests, rest, retry))
    decreases |ds|
  {
    if |ds| > 0 {
      var replies := RetryAfterReplies(ds) + rest;
      assert replies[1..] == RetryAfterReplies(ds[1..]) + rest;
      RetryAfterIsFree(files, requests, ds[1..], rest, retry);
      assert ds == [ds[0]] + ds[1..];
    } else {
      assert RetryAfterReplies(ds) + rest == rest;
    }
  }
}
