# U2TorrentConvert in Dafny

U2TorrentConvert migrates `.torrent` files from the old `dmhy.org` tracker to
its successor. It reads every torrent from the `Origin` folder and keeps the
ones whose announce list names the old tracker. It looks up a new secure key
for each of them through a JSON-RPC 2.0 batch API, 50 info hashes per request.
For every answered hash it writes a copy of the torrent whose old announce URLs
are replaced by `https://daydream.dmhy.best/announce?secure=<key>`.

This project models that pipeline once its input and output are stripped away.
It has these parts:

- **Tracker locator and rewriter** (`trackers.dfy`, module `Trackers`).
  - `Contains` is the ordinal substring test.
  - `Eligible` is the `Any(Any(Contains("dmhy.org")))` test of a torrent's tiers.
  - `Torrent.UpdateTrackers` is the nested in-place loop of `UpdateFileTrackerAsync`.
  - `UpdateTrackers` is proved against the value-level definition `Rewritten`.
- **Candidate dictionary** (`candidates.dfy`, module `Candidates`).
  - The `foreach` that fills `files` is the method `CollectCandidates`.
  - The dictionary is a sequence of (hash, path) entries in insertion order.
  - `Dictionary.Add` on a hash that is already present is an error outcome.
- **Batch planner** (`batches.dfy`, module `Batches`).
  - It cuts the entries into passes with `Skip(i * 50).Take(50)`.
  - Each pass becomes an array of `query` requests numbered from 1.
- **Response correlator** (`correlator.dfy`, module `Correlator`).
  - `UpdateFilesAsync` is a function from the response items to the list of actions performed. Each action either rewrites a torrent with its key or reports the service's error for it.
  - The result also carries the exception, if any, that ended the loop.
- **Request executor** (`executor.dfy`, module `Executor`).
  - The `while` loop that posts one batch until it is answered is the method `RunBatch`.
  - `RunBatch` is proved against the reference function `Exec`.
  - HTTP replies are an input sequence, and the sleeps are a trace of milliseconds.
- **Run coordinator** (`coordinator.dfy`, module `Coordinator`).
  - The outer `for` loop of `Main` is the method `RunBatches`, proved against `Run`.
  - `RunProgram` strings candidate collection and the passes together.

The model follows the code wherever the code and its comments or documented
intent differ:

- A hash that occurs twice among the eligible torrents makes `files.Add` throw. The process ends before any request is sent; the entry is not overwritten.
- A batch with no entries sends nothing. The extra pass when the number of candidates is a multiple of 50 (zero included) is therefore harmless: the guard `requestItems.Length > 0` skips it.
- An unmatched response id makes `FirstOrDefault` return `null`. The `.params` access then throws, so the `null` test on the following line is never reached.
- The delay after a counted failure is 3000 ms, although the comment beside it says 5000 ms.
- A 503 with `Retry-After` does not count as an attempt, so a batch can be retried any number of times.

## Model

| member | source | states |
|---|---|---|
| Trackers.Contains | U2TorrentConvert/Program.cs:72 | the scan returns true iff `sub` occurs in `s` at some index |
| Trackers.TierHasTarget | U2TorrentConvert/Program.cs:72 | a tier passes the inner `Any` iff one of its URLs contains `dmhy.org` |
| Trackers.Eligible | U2TorrentConvert/Program.cs:72 | a torrent is a candidate iff some URL of some tier contains `dmhy.org` |
| Trackers.Torrent.constructor | U2TorrentConvert/Program.cs:186-188 | the decoded torrent carries the announce list it was read with |
| Trackers.Torrent.UpdateTrackers | U2TorrentConvert/Program.cs:201-210 | after the nested loops the announce list is the old one with every old-tracker URL replaced by the new announce URL, all others kept |
| Trackers.RewritePreservesShape | U2TorrentConvert/Program.cs:201-210 | the number of tiers and the length of every tier are unchanged |
| Trackers.RewriteEntries | U2TorrentConvert/Program.cs:203-208 | an entry containing `dmhy.org` becomes `https://daydream.dmhy.best/announce?secure=<key>`; any other entry is kept |
| Trackers.EligibleGetsAnnounceUrl | U2TorrentConvert/Program.cs:72 | a torrent the locator accepts ends with at least one entry equal to the new announce URL |
| Trackers.IneligibleUnchanged | U2TorrentConvert/Program.cs:72 | a torrent the locator rejects is left exactly as it was |
| Trackers.RewriteLeavesNoOldTracker | U2TorrentConvert/Program.cs:201-210 | after the rewrite, every entry containing `dmhy.org` is the new announce URL itself |
| Trackers.RewriteIdempotent | U2TorrentConvert/Program.cs:201-210 | rewriting twice with the same key equals rewriting once |
| Candidates.CandidatesAreEligible | U2TorrentConvert/Program.cs:66-78 | every candidate comes from an eligible torrent, every eligible torrent gives a candidate, and there are no more candidates than torrents |
| Candidates.CollectCandidates | U2TorrentConvert/Program.cs:66-78 | succeeds iff the eligible torrents' hashes are distinct, then yields the candidates in enumeration order; otherwise fails with `DuplicateHash` of a hash that two candidates share |
| Candidates.FindEntry | U2TorrentConvert/Program.cs:180 | the indexer finds an entry with the given key, and finds nothing exactly when no entry has that key |
| Candidates.FindEntryUnique | U2TorrentConvert/Program.cs:180 | with distinct keys the indexer finds exactly the entry that carries the key |
| Batches.PlanAt | U2TorrentConvert/Program.cs:83-91 | the plan has `n / 50 + 1` request arrays, and the one for pass `i` is built from window `i` |
| Batches.BatchIsWindow | U2TorrentConvert/Program.cs:85 | pass `i` holds exactly the entries `i*50 .. min(n, i*50+50)` in their order, at most 50 of them |
| Batches.BatchSizes | U2TorrentConvert/Program.cs:83-85 | every pass but the last holds 50 entries; the last holds `n % 50` |
| Batches.LastPassEmptyIffMultiple | U2TorrentConvert/Program.cs:83-85 | the last pass is empty iff `n` is a multiple of 50, zero included |
| Batches.EntryPlacement | U2TorrentConvert/Program.cs:85 | entry `p` is sent in pass `p / 50` at position `p % 50` |
| Batches.JoinedPrefix | U2TorrentConvert/Program.cs:83-85 | the first `m` passes together are the first `min(n, 50m)` entries |
| Batches.BatchesCoverAll | U2TorrentConvert/Program.cs:83-85 | concatenating all passes in order gives back every entry exactly once |
| Batches.RequestShape | U2TorrentConvert/Program.cs:85-91 | request `k` of a batch is a JSON-RPC `2.0` `query` whose only parameter is the hash of entry `k` and whose id is `k + 1` |
| Correlator.FindRequest | U2TorrentConvert/Program.cs:171 | yields the first request with the item's id, or nothing exactly when no request has it |
| Correlator.RequestIdsLocate | U2TorrentConvert/Program.cs:85-91 | the ids of a batch are exactly `1 .. len`: id `k` finds request `k - 1`, and any other id finds nothing |
| Correlator.Correlate | U2TorrentConvert/Program.cs:169-196 | the items are handled in response order, each action is that item's outcome, and the first exception stops the loop; an item with an error gives only a report, one without gives a rewrite |
| Correlator.ResolveBatchItem | U2TorrentConvert/Program.cs:171-195 | an item whose id belongs to the pass acts on the entry queried under that id, with its result as key or its error reported |
| Correlator.CorrelateBatch | U2TorrentConvert/Program.cs:169-195 | when every response id is a request id of the pass, no exception occurs and action `k` acts on the file whose hash was queried under item `k`'s id |
| Correlator.UnmatchedIdFaults | U2TorrentConvert/Program.cs:171-172 | the first item with an id outside the pass ends the loop with `UnmatchedId` after the actions of the items before it |
| Executor.Exec | U2TorrentConvert/Program.cs:98-153 | a batch never consumes more replies than it is given |
| Executor.RunBatch | U2TorrentConvert/Program.cs:98-153 | the `while` loop ends as `Exec` from attempt 0 says (same end, replies consumed, sleeps and actions); an empty batch is skipped without sending anything |
| Executor.ExecBudget | U2TorrentConvert/Program.cs:98-152 | a batch sees at most ten counted failures, and it is abandoned exactly when it has seen ten |
| Executor.ExecRetried | U2TorrentConvert/Program.cs:109-152 | every reply consumed before the one that ended the batch was a 503 with `Retry-After` or a counted failure |
| Executor.ExecEnds | U2TorrentConvert/Program.cs:98-153 | `Done` and `Crashed` follow a 200 whose items went to the correlator, `Aborted` follows a 403, running out of replies consumes them all, and only a 200 performs actions |
| Executor.ExecSleeps | U2TorrentConvert/Program.cs:109-152 | the sleeps are the `Retry-After` delays, 3000 ms after each counted failure and 3000 ms after a 200 that did not crash |
| Executor.CountedFailuresAbandon | U2TorrentConvert/Program.cs:143-152 | from attempt `r`, `10 - r` counted failures abandon the batch after that many replies, sleeping 3000 ms after each, without calling the correlator |
| Executor.RetryAfterIsFree | U2TorrentConvert/Program.cs:109-116 | any number of 503s with `Retry-After` are consumed, each sleeping the server's delay, without touching the attempt counter |
| Coordinator.RunFrom | U2TorrentConvert/Program.cs:83-154 | the passes never consume more replies than are given, and never give back any already consumed |
| Coordinator.RunPass | U2TorrentConvert/Program.cs:85-99 | pass `i` sends the planned request array and ends as the executor says |
| Coordinator.RunBatches | U2TorrentConvert/Program.cs:83-154 | the outer loop produces exactly the run `Run` describes: passes, replies consumed, sleeps, actions and how it ended |
| Coordinator.RunProgram | U2TorrentConvert/Program.cs:66-154 | with distinct candidate hashes the program is the run over the candidates; otherwise it crashes with `DuplicateHash` before any pass: no reply is read, nothing is slept and no file is rewritten or reported |
| Coordinator.PassesInOrder | U2TorrentConvert/Program.cs:83-154 | passes run in plan order, empty ones are skipped, every pass but the last went on to the next (a `Failed` batch does), a completed run made every pass, and a halted run stopped at the pass that halted it |
| Coordinator.RunPassesInOrder | U2TorrentConvert/Program.cs:83-91 | pass `k` of the whole run sends the requests built from entries `50k ..`, and a completed run makes `n / 50 + 1` passes |
| Coordinator.ForbiddenEndsRun | U2TorrentConvert/Program.cs:119-126 | a run stopped by a 403 has that 403 as the last reply it consumed, so no later reply is read and no later pass is made |
| Coordinator.NoCandidatesSendNothing | U2TorrentConvert/Program.cs:83-99 | with no candidates the one pass is skipped: no reply is read, no sleep, no action |
| Coordinator.MultipleOfFiftyEndsWithEmptyPass | U2TorrentConvert/Program.cs:83-99 | with a multiple of 50 candidates, a completed run ends with an extra, empty, skipped pass |

## Left out

- HTTP transport (`HttpClient.PostAsync`, status and header objects) is not modelled. The service's replies are an input sequence, one per attempt, so a batch or run can also end because the sequence ran out (`Exhausted`). That end does not exist in the program.
- `Retry-After` is taken as a non-negative number of milliseconds. The date form of the header, where `Delta` is null and `.Value` throws, is not modelled, and neither is the `Convert.ToInt32` overflow.
- Executor.Exec: its own contract states only the reply bound. What it computes is stated by `ExecBudget`, `ExecRetried`, `ExecEnds`, `ExecSleeps`, `CountedFailuresAbandon` and `RetryAfterIsFree`.
- Coordinator.RunFrom: its own contract states only the reply bounds. What it computes is stated by `PassesInOrder` and `ForbiddenEndsRun`.
- `Thread.Sleep` is recorded as a trace of the requested milliseconds; time itself is not modelled.
- JSON serialisation of the requests and deserialisation of the response, and their exceptions, are left out. The model works on the structured records; a JSON `null` is `None`.
- Bencode parsing and encoding (BencodeNET) are left out: reading the torrents, re-reading a torrent before its rewrite, and writing the new file. A torrent is its announce tiers plus an opaque `OriginalInfoHash`. A `Rewrite` action stands for the re-read, the rewrite and the write, and only the rewrite of the tiers (`Torrent.UpdateTrackers`) is modelled.
- The filesystem is left out: the `Origin`/`New` folders, `apikey.txt` and the start-up guards that return early.
- `Path.Combine` and `Path.GetFileName` are library calls and are not modelled.
- Console colouring and logging are left out, including the request body, the per-item report line and the final `ReadLine`. A `Report` action stands for the report line.
- .NET `Dictionary` enumeration order is assumed to be insertion order (no removals happen), so the dictionary is a sequence of entries.
- The 32-bit `int` arithmetic of `i * 50`, the request ids and the retry counter is not modelled. These values stay far below `int.MaxValue` for any realistic number of torrents.
- A null `result` in a response item without an error is modelled as the empty key, as C# string interpolation renders it.
