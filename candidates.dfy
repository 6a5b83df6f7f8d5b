/**
 * The candidate dictionary of `Main`: the info hash and path of every input
 * torrent the tracker locator accepts. A .NET `Dictionary` is modelled as the
 * sequence of its entries in insertion order, keys pairwise distinct.
 */
module Candidates {
  import opened Wrappers
  import opened Messages
  import opened Trackers

  /** An input torrent as enumerated from the input directory, already decoded. */
  datatype TorrentFile = TorrentFile(path: string, infoHash: string, trackers: seq<seq<string>>)

  function EntryOf(t: TorrentFile): Entry {
    Entry(t.infoHash, t.path)
  }

  /** Entries `p` and `q` (`p < q`) share the key `hash`. */
  predicate DuplicateAt(files: seq<Entry>, p: int, q: int, hash: string) {
    0 <= p < q < |files| && files[p].hash == hash && files[q].hash == hash
  }

  /** Keys of a dictionary are pairwise distinct. */
  predicate DistinctHashes(files: seq<Entry>) {
    forall p, q :: 0 <= p < q < |files| ==> files[p].hash != files[q].hash
  }

  /**
   * The entries the `foreach` of `Main` adds, in enumeration order: one per
   * eligible torrent, and only those.
   */
  function CandidateEntries(torrents: seq<TorrentFile>): seq<Entry> {
    if |torrents| == 0 then []
    else (if Eligible(torrents[0].trackers) then [EntryOf(torrents[0])] else []) + CandidateEntries(torrents[1..])
  }

  /** Every candidate comes from an eligible torrent, and every eligible torrent gives a candidate. */
  lemma {:induction false} CandidatesAreEligible(torrents: seq<TorrentFile>)
    ensures |CandidateEntries(torrents)| <= |torrents|
    ensures forall e :: e in CandidateEntries(torrents) ==> exists t :: t in torrents && Eligible(t.trackers) && e == EntryOf(t)
    ensures forall t :: t in torrents && Eligible(t.trackers) ==> EntryOf(t) in CandidateEntries(torrents)
  {
    if |torrents| > 0 {
      CandidatesAreEligible(torrents[1..]);
      assert torrents == [torrents[0]] + torrents[1..];
    }
  }

  lemma {:induction false} CandidatesAppend(a: seq<TorrentFile>, b: seq<TorrentFile>)
    ensures CandidateEntries(a + b) == CandidateEntries(a) + CandidateEntries(b)
    decreases |a|
  {
    if |a| > 0 {
      assert (a + b)[1..] == a[1..] + b;
      CandidatesAppend(a[1..], b);
    } else {
      assert a + b == b;
    }
  }

  /**
   * The dictionary indexer `files[hash]`: the position of the entry whose key
   * is `hash`, or `None` where the indexer throws.
   */
  function FindEntry(files: seq<Entry>, hash: string): (r: Option<nat>)
    ensures r.Some? ==> r.value < |files| && files[r.value].hash == hash
    ensures r.None? <==> forall k :: 0 <= k < |files| ==> files[k].hash != hash
  {
    if |files| == 0 then None
    else if files[0].hash == hash then Some(0)
    else match FindEntry(files[1..], hash)
      case None => None
      case Some(k) => Some(k + 1)
  }

  /** With distinct keys the indexer finds the one entry that carries the key. */
  lemma FindEntryUnique(files: seq<Entry>, k: int)
    requires DistinctHashes(files)
    requires 0 <= k < |files|
    ensures FindEntry(files, files[k].hash) == Some(k)
  {
  }

  /**
   * The `foreach` of `Main`: each eligible torrent is added under its info
   * hash; `Dictionary.Add` throws on a hash that is already a key, which ends
   * the process before any request is sent.
   */
  method CollectCandidates(torrents: seq<TorrentFile>) returns (r: Result<seq<Entry>, Fault>)
    ensures r.Success? <==> DistinctHashes(CandidateEntries(torrents))
    ensures r.Success? ==> r.value == CandidateEntries(torrents)
    ensures r.Failure? ==> r.error.DuplicateHash?
    ensures r.Failure? ==> exists p, q :: DuplicateAt(CandidateEntries(torrents), p, q, r.error.hash)
  {
    var files: seq<Entry> := [];
    for k := 0 to |torrents|
      invariant files == CandidateEntries(torrents[..k])
      invariant DistinctHashes(files)
    {
      var t := torrents[k];
      CandidatesAppend(torrents[..k], [t]);
      assert torrents[..k + 1] == torrents[..k] + [t];
      if Eligible(t.trackers) {
        assert CandidateEntries([t]) == [EntryOf(t)];
        var found := FindEntry(files, t.infoHash);
        if found.Some? {
          CandidatesAppend(torrents[..k + 1], torrents[k + 1..]);
          assert torrents == torrents[..k + 1] + torrents[k + 1..];
          ghost var all := CandidateEntries(torrents);
          assert all[..|files| + 1] == files + [EntryOf(t)];
          assert DuplicateAt(all, found.value, |files|, t.infoHash);
          return Failure(DuplicateHash(t.infoHash));
        }
        files := files + [EntryOf(t)];
      } else {
        assert CandidateEntries([t]) == [];
      }
    }
    assert torrents[..|torrents|] == torrents;
    return Success(files);
  }
}
