/**
 * The batch planner of `Main`: the candidate entries, in dictionary order,
 * are cut into windows of 50 with `Skip`/`Take`, and each window becomes an
 * array of JSON-RPC `query` requests numbered from 1. The batch size is
 * the literal 50 throughout, as in the source (a literal factor keeps the
 * window arithmetic linear for the verifier).
 */
module Batches {
  import opened Messages

  /** `files.Count / 50 + 1`: the number of passes of the outer `for` loop. */
  function PassCount(n: nat): nat {
    n / 50 + 1
  }

  function Min(a: int, b: int): int {
    if a <= b then a else b
  }

  /** `Enumerable.Skip`: drops the first `k` elements, or all of them. */
  function Skip<T>(s: seq<T>, k: nat): seq<T> {
    if k <= |s| then s[k..] else []
  }

  /** `Enumerable.Take`: keeps the first `k` elements, or all of them. */
  function Take<T>(s: seq<T>, k: nat): seq<T> {
    if k <= |s| then s[..k] else s
  }

  /** `files.Skip(i * 50).Take(50)`: the entries of pass `i`. */
  function BatchEntries(files: seq<Entry>, i: nat): seq<Entry> {
    Take(Skip(files, i * 50), 50)
  }

  /** The request item built for the entry at 0-based position `k` of a batch. */
  function RequestFor(e: Entry, k: nat): RequestItem {
    RequestItem(JsonRpcVersion, QueryMethod, [e.hash], k + 1)
  }

  /** `.Select((x, i) => new RequestItemModel { ..., id = i + 1 }).ToArray()` */
  function BuildRequests(batch: seq<Entry>): seq<RequestItem> {
    seq(|batch|, k requires 0 <= k < |batch| => RequestFor(batch[k], k))
  }

  /** The request arrays `build(i), build(i + 1), .., build(n - 1)`, made pass by pass. */
  function PlanFrom(build: nat -> seq<RequestItem>, n: nat, i: nat): seq<seq<RequestItem>>
    decreases n - i
  {
    if i >= n then [] else [build(i)] + PlanFrom(build, n, i + 1)
  }

  /** The request arrays of all passes of the outer loop, in pass order. */
  function Plan(files: seq<Entry>): seq<seq<RequestItem>> {
    PlanFrom((k: nat) => BuildRequests(BatchEntries(files, k)), PassCount(|files|), 0)
  }

  lemma {:induction false} PlanFromAt(build: nat -> seq<RequestItem>, n: nat, i: nat, k: nat)
    requires i <= n
    ensures |PlanFrom(build, n, i)| == n - i
    ensures k < n - i ==> PlanFrom(build, n, i)[k] == build(i + k)
    decreases n - i
  {
    if i < n {
      if k == 0 {
        PlanFromAt(build, n, i + 1, 0);
      } else {
        PlanFromAt(build, n, i + 1, k - 1);
        assert i + 1 + (k - 1) == i + k;
      }
    }
  }

  /** There is one request array per pass, and pass `i` sends the requests built from its window. */
  lemma PlanAt(files: seq<Entry>, i: nat)
    ensures |Plan(files)| == PassCount(|files|)
    ensures i < PassCount(|files|) ==> Plan(files)[i] == BuildRequests(BatchEntries(files, i))
  {
    PlanFromAt((k: nat) => BuildRequests(BatchEntries(files, k)), PassCount(|files|), 0, i);
  }

  /**
   * Pass `i` holds exactly the entries `i*50 .. min(n, i*50+50)`, in their
   * original order, and never more than 50 of them.
   */
  lemma BatchIsWindow(files: seq<Entry>, i: nat)
    requires i < PassCount(|files|)
    ensures i * 50 <= |files|
    ensures BatchEntries(files, i) == files[i * 50 .. Min(|files|, i * 50 + 50)]
    ensures |BatchEntries(files, i)| <= 50
  {
    assert i <= |files| / 50;
    assert i * 50 <= (|files| / 50) * 50 <= |files|;
  }

  /** Every pass but the last is full; the last holds the remaining `n % 50` entries. */
  lemma BatchSizes(files: seq<Entry>, i: nat)
    requires i < PassCount(|files|)
    ensures i < PassCount(|files|) - 1 ==> |BatchEntries(files, i)| == 50
    ensures i == PassCount(|files|) - 1 ==> |BatchEntries(files, i)| == |files| % 50
  {
    BatchIsWindow(files, i);
    if i < PassCount(|files|) - 1 {
      assert (i + 1) * 50 <= (|files| / 50) * 50 <= |files|;
    }
  }

  /**
   * The extra pass: the last pass is empty exactly when the number of
   * candidates is a multiple of 50, zero included.
   */
  lemma LastPassEmptyIffMultiple(files: seq<Entry>)
    ensures BatchEntries(files, PassCount(|files|) - 1) == [] <==> |files| % 50 == 0
  {
    BatchSizes(files, PassCount(|files|) - 1);
  }

  /** The entry at position `p` of the whole sequence is entry `p % 50` of pass `p / 50`. */
  lemma EntryPlacement(files: seq<Entry>, p: nat)
    requires p < |files|
    ensures p / 50 < PassCount(|files|)
    ensures p % 50 < |BatchEntries(files, p / 50)|
    ensures BatchEntries(files, p / 50)[p % 50] == files[p]
  {
    var i := p / 50;
    assert i * 50 + p % 50 == p;
    BatchIsWindow(files, i);
  }

  /** The concatenation of passes `0 .. m-1`. */
  function Joined(files: seq<Entry>, m: nat): seq<Entry> {
    if m == 0 then [] else Joined(files, m - 1) + BatchEntries(files, m - 1)
  }

  /** The window of 50 entries starting at position `a`, cut short by the end of `files`. */
  lemma Window(files: seq<Entry>, a: nat)
    ensures Take(Skip(files, a), 50) == files[Min(|files|, a)..Min(|files|, a + 50)]
  {
  }

  lemma {:induction false} JoinedPrefix(files: seq<Entry>, m: nat)
    ensures Joined(files, m) == files[..Min(|files|, m * 50)]
  {
    if m > 0 {
      JoinedPrefix(files, m - 1);
      var a := (m - 1) * 50;
      assert m * 50 == a + 50;
      var lo := Min(|files|, a);
      var hi := Min(|files|, a + 50);
      Window(files, a);
      assert BatchEntries(files, m - 1) == files[lo..hi];
      assert files[..lo] + files[lo..hi] == files[..hi];
    }
  }

  /**
   * Concatenating the entries of all passes, in pass order, gives back the
   * whole candidate sequence: each entry is sent exactly once.
   */
  lemma BatchesCoverAll(files: seq<Entry>)
    ensures Joined(files, PassCount(|files|)) == files
  {
    JoinedPrefix(files, PassCount(|files|));
    assert PassCount(|files|) * 50 >= |files|;
  }

  /** Request `k` of a batch queries the hash of entry `k` under id `k + 1`, as JSON-RPC 2.0 `query`. */
  lemma RequestShape(batch: seq<Entry>, k: int)
    requires 0 <= k < |batch|
    ensures |BuildRequests(batch)| == |batch|
    ensures BuildRequests(batch)[k].jsonrpc == "2.0" && BuildRequests(batch)[k].methodName == "query"
    ensures BuildRequests(batch)[k].params == [batch[k].hash]
    ensures BuildRequests(batch)[k].id == k + 1
  {
  }
}
