/**
 * The run coordinator: the outer `for` loop of `Main` runs the passes in
 * order, each through the request executor; a 403 or an exception ends the
 * run, an abandoned batch does not.
 */
module Coordinator {
  import opened Messages
  import opened Candidates
  import opened Batches
  import opened Executor

  /** How a run ends: all passes were made, or a pass stopped it (403, an exception, no more replies). */
  datatype RunEnd = Completed | Halted(cause: BatchEnd)

  /** One pass of the outer loop: its index, the requests it built and how its batch ended. */
  datatype Pass = Pass(index: nat, requests: seq<RequestItem>, end: BatchEnd)

  datatype RunResult = RunResult(end: RunEnd, passes: seq<Pass>, consumed: nat, sleeps: seq<nat>, actions: seq<Action>)

  /** Batch ends after which the outer loop goes on with the next pass. */
  predicate Continues(e: BatchEnd) {
    e.Skipped? || e.Done? || e.Failed?
  }

  /** `acc` after one more pass whose batch ran as `b`. */
  function Record(acc: RunResult, pass: Pass, b: BatchRun): RunResult {
    RunResult(acc.end, acc.passes + [pass], acc.consumed + b.consumed, acc.sleeps + b.sleeps, acc.actions + b.actions)
  }

  /**
   * The passes `i ..` of the outer loop, pass `i` sending the request array
   * `plan[i]`, after the earlier passes have produced `acc` and read the
   * first `acc.consumed` replies: the reference for `RunBatches`.
   */
  function RunFrom(files: seq<Entry>, plan: seq<seq<RequestItem>>, replies: seq<HttpReply>, i: nat, acc: RunResult): (r: RunResult)
    requires acc.consumed <= |replies|
    ensures acc.consumed <= r.consumed <= |replies|
    decreases |plan| - i
  {
    if i >= |plan| then acc
    else
      var b := Exec(files, plan[i], replies[acc.consumed..], 0);
      var acc' := Record(acc, Pass(i, plan[i], b.end), b);
      if Continues(b.end) then RunFrom(files, plan, replies, i + 1, acc')
      else acc'.(end := Halted(b.end))
  }

  /** The whole run over the candidate entries `files`. */
  function Run(files: seq<Entry>, replies: seq<HttpReply>): RunResult {
    RunFrom(files, Plan(files), replies, 0, RunResult(Completed, [], 0, [], []))
  }

  /** The body of the outer loop: build the requests of pass `i` and run them through the executor. */
  method RunPass(files: seq<Entry>, i: nat, replies: seq<HttpReply>) returns (requests: seq<RequestItem>, b: BatchRun)
    requires i < |Plan(files)|
    ensures requests == Plan(files)[i]
    ensures b == Exec(files, requests, replies, 0)
  {
    PlanAt(files, i);
    requests := BuildRequests(BatchEntries(files, i));
    b := RunBatch(files, requests, replies);
  }

  /** The outer `for (int i = 0; i < files.Count / 50 + 1; i++)` loop of `Main`. */
  method RunBatches(files: seq<Entry>, replies: seq<HttpReply>) returns (r: RunResult)
    ensures r == Run(files, replies)
  {
    ghost var plan := Plan(files);
    PlanAt(files, 0);
    var passes: seq<Pass> := [];
    var pos := 0;
    var sleeps: seq<nat> := [];
    var actions: seq<Action> := [];
    for i := 0 to PassCount(|files|)
      invariant 0 <= pos <= |replies|
      invariant Run(files, replies) == RunFrom(files, plan, replies, i, RunResult(Completed, passes, pos, sleeps, actions))
    {
      var requests, b := RunPass(files, i, replies[pos..]);
      passes := passes + [Pass(i, requests, b.end)];
      sleeps := sleeps + b.sleeps;
      actions := actions + b.actions;
      pos := pos + b.consumed;
      if !Continues(b.end) {
        return RunResult(Halted(b.end), passes, pos, sleeps, actions);
      }
    }
    return RunResult(Completed, passes, pos, sleeps, actions);
  }

  /**
   * `Main` after its start-up checks: collect the candidates, then run the
   * passes; a duplicate hash ends the process before any request is sent.
   */
  method RunProgram(torrents: seq<TorrentFile>, replies: seq<HttpReply>) returns (r: RunResult)
    ensures DistinctHashes(CandidateEntries(torrents)) ==> r == Run(CandidateEntries(torrents), replies)
    ensures !DistinctHashes(CandidateEntries(torrents)) ==>
      && r.end.Halted? && r.end.cause.Crashed? && r.end.cause.fault.DuplicateHash?
      && r.passes == [] && r.consumed == 0 && r.sleeps == [] && r.actions == []
  {
    var collected := CollectCandidates(torrents);
    if collected.Failure? {
      return RunResult(Halted(Crashed(collected.error)), [], 0, [], []);
    }
    r := RunBatches(collected.value, replies);
  }

  /**
   * The passes recorded so far follow the plan: pass `k` has index `k` and
   * sent `plan[k]`, and a pass that had nothing to send was skipped.
   */
  ghost predicate FollowsPlan(plan: seq<seq<RequestItem>>, passes: seq<Pass>) {
    && |passes| <= |plan|
    && forall k :: 0 <= k < |passes| ==>
         passes[k].index == k && passes[k].requests == plan[k] && (plan[k] == [] ==> passes[k].end == Skipped)
  }

  /**
   * The passes are made in order: every pass follows the plan, every pass
   * but the last went on to the next, a completed run made every pass, and
   * a halted one stopped at the pass whose end halted it.
   */
  lemma {:induction false} PassesInOrder(files: seq<Entry>, plan: seq<seq<RequestItem>>, replies: seq<HttpReply>, i: nat, acc: RunResult)
    requires acc.consumed <= |replies| && acc.end.Completed?
    requires |acc.passes| == i <= |plan| && FollowsPlan(plan, acc.passes)
    requires forall k :: 0 <= k < i ==> Continues(acc.passes[k].end)
    ensures var r := RunFrom(files, plan, replies, i, acc);
      && FollowsPlan(plan, r.passes)
      && (forall k :: 0 <= k < |r.passes| - 1 ==> Continues(r.passes[k].end))
      && (r.end.Completed? ==> |r.passes| == |plan|)
      && (r.end.Halted? ==> |r.passes| > 0 && r.passes[|r.passes| - 1].end == r.end.cause && !Continues(r.end.cause))
    decreases |plan| - i
  {
    if i < |plan| {
      var b := Exec(files, plan[i], replies[acc.consumed..], 0);
      var acc' := Record(acc, Pass(i, plan[i], b.end), b);
      assert acc'.passes[i] == Pass(i, plan[i], b.end);
      if Continues(b.end) {
        PassesInOrder(files, plan, replies, i + 1, acc');
      }
    }
  }

  /**
   * The whole run makes its passes in order, over the windows of 50: pass
   * `k` sends the requests built from entries `50k ..`, and a pass with no
   * entries is skipped.
   */
  lemma RunPassesInOrder(files: seq<Entry>, replies: seq<HttpReply>)
    ensures var r := Run(files, replies);
      && |r.passes| <= PassCount(|files|)
      && (forall k :: 0 <= k < |r.passes| ==>
            r.passes[k].index == k && r.passes[k].requests == BuildRequests(BatchEntries(files, k)))
      && (forall k :: 0 <= k < |r.passes| - 1 ==> Continues(r.passes[k].end))
      && (r.end.Completed? ==> |r.passes| == PassCount(|files|))
  {
    PassesInOrder(files, Plan(files), replies, 0, RunResult(Completed, [], 0, [], []));
    PlanAt(files, 0);
    forall k | 0 <= k < PassCount(|files|)
      ensures Plan(files)[k] == BuildRequests(BatchEntries(files, k))
    {
      PlanAt(files, k);
    }
  }

  /**
   * A 403 ends the whole run: the last reply consumed is that 403, so no
   * later reply is read, and (by `PassesInOrder`) no later pass is made.
   */
  lemma {:induction false} ForbiddenEndsRun(files: seq<Entry>, plan: seq<seq<RequestItem>>, replies: seq<HttpReply>, i: nat, acc: RunResult)
    requires acc.consumed <= |replies| && acc.end.Completed?
    requires RunFrom(files, plan, replies, i, acc).end == Halted(Aborted)
    ensures RunFrom(files, plan, replies, i, acc).consumed >= 1
    ensures replies[RunFrom(files, plan, replies, i, acc).consumed - 1].status == StatusForbidden
    decreases |plan| - i
  {
    var rest := replies[acc.consumed..];
    var b := Exec(files, plan[i], rest, 0);
    if Continues(b.end) {
      ForbiddenEndsRun(files, plan, replies, i + 1, Record(acc, Pass(i, plan[i], b.end), b));
    } else {
      ExecEnds(files, plan[i], rest, 0);
      assert rest[b.consumed - 1] == replies[acc.consumed + b.consumed - 1];
    }
  }

  /**
   * No candidates: the single pass has an empty batch, so nothing is sent,
   * nothing is slept and the correlator is never reached.
   */
  lemma NoCandidatesSendNothing(replies: seq<HttpReply>)
    ensures Run([], replies) == RunResult(Completed, [Pass(0, [], Skipped)], 0, [], [])
  {
    PlanAt([], 0);
    assert BatchEntries([], 0) == [];
    assert Plan([]) == [[]];
    SingleEmptyPass(replies);
  }

  lemma SingleEmptyPass(replies: seq<HttpReply>)
    ensures RunFrom([], [[]], replies, 0, RunResult(Completed, [], 0, [], []))
         == RunResult(Completed, [Pass(0, [], Skipped)], 0, [], [])
  {
    assert Exec([], [], replies[0..], 0) == BatchRun(Skipped, 0, [], []);
  }

  /**
   * With a multiple of 50 candidates a completed run ends with an extra pass
   * whose batch is empty and which sends nothing.
   */
  lemma MultipleOfFiftyEndsWithEmptyPass(files: seq<Entry>, replies: seq<HttpReply>)
    requires |files| % 50 == 0
    requires Run(files, replies).end.Completed?
    ensures var r := Run(files, replies);
      |r.passes| == PassCount(|files|) && r.passes[|r.passes| - 1].requests == [] && r.passes[|r.passes| - 1].end == Skipped
  {
    var last := PassCount(|files|) - 1;
    PassesInOrder(files, Plan(files), replies, 0, RunResult(Completed, [], 0, [], []));
    PlanAt(files, last);
    LastPassEmptyIffMultiple(files);
  }
}
