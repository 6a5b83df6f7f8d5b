/**
 * The response correlator, `UpdateFilesAsync`: each response item is traced
 * back through its request id to the queried hash and through the candidate
 * dictionary to the torrent's path, then either rewrites that torrent with
 * the returned key or reports the service's per-hash error.
 */
module Correlator {
  import opened Wrappers
  import opened Messages
  import opened Candidates
  import opened Batches

  /** `requestItems.FirstOrDefault(x => x.id == id)`, as a position; `None` is the C# `null`. */
  function FindRequest(requests: seq<RequestItem>, id: int): (r: Option<nat>)
    ensures r.Some? ==> r.value < |requests| && requests[r.value].id == id
    ensures r.Some? ==> forall m :: 0 <= m < r.value ==> requests[m].id != id
    ensures r.None? <==> forall m :: 0 <= m < |requests| ==> requests[m].id != id
  {
    if |requests| == 0 then None
    else if requests[0].id == id then Some(0)
    else match FindRequest(requests[1..], id)
      case None => None
      case Some(k) => Some(k + 1)
  }

  /**
   * The ids of a built batch are exactly `1 .. |batch|`: id `k` finds request
   * `k - 1`, and every other id finds nothing.
   */
  lemma RequestIdsLocate(batch: seq<Entry>, id: int)
    ensures 1 <= id <= |batch| ==> FindRequest(BuildRequests(batch), id) == Some(id - 1)
    ensures !(1 <= id <= |batch|) ==> FindRequest(BuildRequests(batch), id) == None
  {
    if 1 <= id <= |batch| {
      assert BuildRequests(batch)[id - 1].id == id;
    }
  }

  /** One iteration of the `foreach`: the action an item leads to, or the exception it raises. */
  function Resolve(files: seq<Entry>, requests: seq<RequestItem>, item: ResponseItem): Result<Action, Fault> {
    match FindRequest(requests, item.id)
    case None => Failure(UnmatchedId(item.id))
    case Some(k) =>
      if |requests[k].params| == 0 then Failure(NoParams(item.id))
      else
        var hash := requests[k].params[0];
        match FindEntry(files, hash)
        case None => Failure(UnknownHash(hash))
        case Some(e) =>
          match item.error
          case None => Success(Rewrite(files[e].path, KeyOf(item.result)))
          case Some(err) => Success(Report(files[e].path, err.code, err.message))
  }

  /** The actions performed, and the exception that stopped the loop, if any. */
  datatype Correlation = Correlation(actions: seq<Action>, fault: Option<Fault>)

  /**
   * `UpdateFilesAsync`: items are handled in response order; the first
   * exception ends the loop after the actions of the items before it.
   */
  function Correlate(files: seq<Entry>, requests: seq<RequestItem>, items: seq<ResponseItem>): (c: Correlation)
    ensures |c.actions| <= |items|
    ensures c.fault.None? <==> |c.actions| == |items|
    ensures forall k :: 0 <= k < |c.actions| ==> Resolve(files, requests, items[k]) == Success(c.actions[k])
    ensures c.fault.Some? ==> Resolve(files, requests, items[|c.actions|]) == Failure(c.fault.value)
    ensures forall k :: 0 <= k < |c.actions| ==> (c.actions[k].Rewrite? <==> items[k].error.None?)
  {
    if |items| == 0 then Correlation([], None)
    else
      match Resolve(files, requests, items[0])
      case Failure(f) => Correlation([], Some(f))
      case Success(a) =>
        var rest := Correlate(files, requests, items[1..]);
        Correlation([a] + rest.actions, rest.fault)
  }

  /** The action a well-matched item of pass `i` leads to: its path is that of entry `id - 1` of the pass. */
  function Expected(batch: seq<Entry>, item: ResponseItem): Action
    requires 1 <= item.id <= |batch|
  {
    var path := batch[item.id - 1].path;
    match item.error
    case None => Rewrite(path, KeyOf(item.result))
    case Some(err) => Report(path, err.code, err.message)
  }

  /**
   * One item whose id is a request id of pass `i` is traced to the entry
   * whose hash was queried under that id.
   */
  lemma ResolveBatchItem(files: seq<Entry>, i: nat, item: ResponseItem)
    requires DistinctHashes(files)
    requires i < PassCount(|files|)
    requires 1 <= item.id <= |BatchEntries(files, i)|
    ensures Resolve(files, BuildRequests(BatchEntries(files, i)), item) == Success(Expected(BatchEntries(files, i), item))
  {
    var batch := BatchEntries(files, i);
    BatchIsWindow(files, i);
    RequestIdsLocate(batch, item.id);
    var p := i * 50 + item.id - 1;
    assert batch[item.id - 1] == files[p];
    FindEntryUnique(files, p);
  }

  /**
   * A key is never applied to the wrong file: when every response id of pass
   * `i` is one of its request ids, each item acts on the torrent whose hash
   * was queried under that id, in response order; an item carrying an error
   * only reports it, an item without one rewrites with its result.
   */
  lemma CorrelateBatch(files: seq<Entry>, i: nat, items: seq<ResponseItem>)
    requires DistinctHashes(files)
    requires i < PassCount(|files|)
    requires forall k :: 0 <= k < |items| ==> 1 <= items[k].id <= |BatchEntries(files, i)|
    ensures Correlate(files, BuildRequests(BatchEntries(files, i)), items).fault.None?
    ensures forall k :: 0 <= k < |items| ==>
      Correlate(files, BuildRequests(BatchEntries(files, i)), items).actions[k] == Expected(BatchEntries(files, i), items[k])
  {
    forall k | 0 <= k < |items|
      ensures Resolve(files, BuildRequests(BatchEntries(files, i)), items[k]) == Success(Expected(BatchEntries(files, i), items[k]))
    {
      ResolveBatchItem(files, i, items[k]);
    }
  }

  /**
   * A response id that no request carries makes `FirstOrDefault` return null
   * and the `.params` access throw (the null test after it is never reached):
   * the first such item ends the loop, after the actions of the items before it.
   */
  lemma UnmatchedIdFaults(files: seq<Entry>, i: nat, items: seq<ResponseItem>, k: nat)
    requires DistinctHashes(files)
    requires i < PassCount(|files|)
    requires k < |items|
    requires forall m :: 0 <= m < k ==> 1 <= items[m].id <= |BatchEntries(files, i)|
    requires !(1 <= items[k].id <= |BatchEntries(files, i)|)
    ensures Correlate(files, BuildRequests(BatchEntries(files, i)), items).fault == Some(UnmatchedId(items[k].id))
    ensures |Correlate(files, BuildRequests(BatchEntries(files, i)), items).actions| == k
  {
    var requests := BuildRequests(BatchEntries(files, i));
    forall m | 0 <= m < k ensures Resolve(files, requests, items[m]).Success? {
      ResolveBatchItem(files, i, items[m]);
    }
    RequestIdsLocate(BatchEntries(files, i), items[k].id);
    assert Resolve(files, requests, items[k]) == Failure(UnmatchedId(items[k].id));
  }
}
