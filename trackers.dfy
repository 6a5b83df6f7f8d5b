/**
 * The tracker locator and the tracker rewriter: which announce URLs belong to
 * the old tracker domain, whether a torrent has any, and the in-place
 * replacement of each of them by the new announce URL carrying a secure key.
 */
module Trackers {

  /** The substring that marks an announce URL of the old tracker. */
  const Domain: string := "dmhy.org"

  /** The new announce endpoint; the secure key is appended to it. */
  const AnnouncePrefix: string := "https://daydream.dmhy.best/announce?secure="

  function AnnounceUrl(key: string): string {
    AnnouncePrefix + key
  }

  /** `sub` occurs in `s` starting at index `i` */
  ghost predicate OccursAt(s: string, sub: string, i: int) {
    0 <= i && i + |sub| <= |s| && s[i..i + |sub|] == sub
  }

  /** Ordinal `String.Contains(string)`: a left-to-right scan for `sub`. */
  function Contains(s: string, sub: string): (b: bool)
    ensures b <==> exists i :: OccursAt(s, sub, i)
    decreases |s|
  {
    if |sub| <= |s| && s[..|sub|] == sub then
      assert OccursAt(s, sub, 0);
      true
    else if |s| == 0 then
      assert forall i :: !OccursAt(s, sub, i);
      false
    else
      var b := Contains(s[1..], sub);
      assert forall i :: OccursAt(s[1..], sub, i) <==> OccursAt(s, sub, i + 1) by {
        forall i ensures OccursAt(s[1..], sub, i) <==> OccursAt(s, sub, i + 1) {
          if 0 <= i && i + |sub| <= |s| - 1 {
            assert s[1..][i..i + |sub|] == s[i + 1..i + 1 + |sub|];
          }
        }
      }
      assert !OccursAt(s, sub, 0);
      assert (exists i :: OccursAt(s, sub, i)) ==> exists i :: OccursAt(s[1..], sub, i) by {
        if i :| OccursAt(s, sub, i) {
          assert i != 0;
          assert OccursAt(s[1..], sub, i - 1);
        }
      }
      b
  }

  /** An announce URL of the old tracker (the test of `Program.cs` lines 72 and 205). */
  predicate IsTarget(url: string) {
    Contains(url, Domain)
  }

  /** `tier.Any(y => y.Contains("dmhy.org"))` */
  function TierHasTarget(tier: seq<string>): (b: bool)
    ensures b <==> exists j :: 0 <= j < |tier| && IsTarget(tier[j])
  {
    if |tier| == 0 then false
    else IsTarget(tier[0]) || TierHasTarget(tier[1..])
  }

  /**
   * `torrent.Trackers.Any(x => x.Any(...))`: a torrent is a candidate for a
   * key lookup iff some URL in some tier belongs to the old tracker.
   */
  function Eligible(tiers: seq<seq<string>>): (b: bool)
    ensures b <==> exists i, j :: 0 <= i < |tiers| && 0 <= j < |tiers[i]| && IsTarget(tiers[i][j])
  {
    if |tiers| == 0 then false
    else TierHasTarget(tiers[0]) || Eligible(tiers[1..])
  }

  /** The value one announce-list entry has after the rewrite. */
  function RewriteUrl(url: string, key: string): string {
    if IsTarget(url) then AnnounceUrl(key) else url
  }

  function RewriteTier(tier: seq<string>, key: string): seq<string> {
    seq(|tier|, j requires 0 <= j < |tier| => RewriteUrl(tier[j], key))
  }

  /** The announce list after `UpdateFileTrackerAsync` with secure key `key`. */
  function Rewritten(tiers: seq<seq<string>>, key: string): seq<seq<string>> {
    seq(|tiers|, i requires 0 <= i < |tiers| => RewriteTier(tiers[i], key))
  }

  /** The decoded torrent the rewriter mutates: only its announce list is modelled. */
  class Torrent {
    var trackers: seq<seq<string>>

    constructor (trackers: seq<seq<string>>)
      ensures this.trackers == trackers
    {
      this.trackers := trackers;
    }

    /**
     * The nested loops of `UpdateFileTrackerAsync`: every entry of every tier
     * that contains the old domain is overwritten with the new announce URL.
     */
    method UpdateTrackers(key: string)
      modifies this
      ensures trackers == Rewritten(old(trackers), key)
    {
      ghost var original := trackers;
      var i := 0;
      while i < |trackers|
        invariant 0 <= i <= |trackers| == |original|
        invariant forall k :: 0 <= k < i ==> trackers[k] == RewriteTier(original[k], key)
        invariant forall k :: i <= k < |trackers| ==> trackers[k] == original[k]
      {
        var j := 0;
        while j < |trackers[i]|
          invariant |trackers| == |original|
          invariant 0 <= j <= |trackers[i]| == |original[i]|
          invariant forall m :: 0 <= m < j ==> trackers[i][m] == RewriteUrl(original[i][m], key)
          invariant forall m :: j <= m < |trackers[i]| ==> trackers[i][m] == original[i][m]
          invariant forall k :: 0 <= k < i ==> trackers[k] == RewriteTier(original[k], key)
          invariant forall k :: i < k < |trackers| ==> trackers[k] == original[k]
        {
          if IsTarget(trackers[i][j]) {
            trackers := trackers[i := trackers[i][j := AnnounceUrl(key)]];
          }
          j := j + 1;
        }
        assert trackers[i] == RewriteTier(original[i], key);
        i := i + 1;
      }
      assert trackers == Rewritten(original, key);
    }
  }

  /** Rewriting changes neither the number of tiers nor the length of any tier. */
  lemma RewritePreservesShape(tiers: seq<seq<string>>, key: string)
    ensures |Rewritten(tiers, key)| == |tiers|
    ensures forall i :: 0 <= i < |tiers| ==> |Rewritten(tiers, key)[i]| == |tiers[i]|
  {
  }

  /**
   * Entry by entry: an old-tracker URL becomes the new announce URL, every
   * other URL is kept as it was.
   */
  lemma RewriteEntries(tiers: seq<seq<string>>, key: string, i: int, j: int)
    requires 0 <= i < |tiers| && 0 <= j < |tiers[i]|
    ensures IsTarget(tiers[i][j]) ==> Rewritten(tiers, key)[i][j] == AnnounceUrl(key)
    ensures !IsTarget(tiers[i][j]) ==> Rewritten(tiers, key)[i][j] == tiers[i][j]
  {
  }

  /** A torrent the locator accepts ends up with at least one new announce URL. */
  lemma EligibleGetsAnnounceUrl(tiers: seq<seq<string>>, key: string)
    requires Eligible(tiers)
    ensures exists i, j :: 0 <= i < |tiers| && 0 <= j < |tiers[i]| && Rewritten(tiers, key)[i][j] == AnnounceUrl(key)
  {
    var i, j :| 0 <= i < |tiers| && 0 <= j < |tiers[i]| && IsTarget(tiers[i][j]);
    assert Rewritten(tiers, key)[i][j] == AnnounceUrl(key);
  }

  /** A torrent the locator rejects is left exactly as it was. */
  lemma IneligibleUnchanged(tiers: seq<seq<string>>, key: string)
    requires !Eligible(tiers)
    ensures Rewritten(tiers, key) == tiers
  {
    forall i | 0 <= i < |tiers| ensures Rewritten(tiers, key)[i] == tiers[i] {
      assert RewriteTier(tiers[i], key) == tiers[i];
    }
  }

  /** After the rewrite, the only old-domain URL that can remain is the new announce URL itself. */
  lemma RewriteLeavesNoOldTracker(tiers: seq<seq<string>>, key: string)
    ensures forall i, j :: 0 <= i < |tiers| && 0 <= j < |tiers[i]| && IsTarget(Rewritten(tiers, key)[i][j]) ==>
                             Rewritten(tiers, key)[i][j] == AnnounceUrl(key)
  {
  }

  /** Rewriting twice with the same key is the same as rewriting once. */
  lemma RewriteIdempotent(tiers: seq<seq<string>>, key: string)
    ensures Rewritten(Rewritten(tiers, key), key) == Rewritten(tiers, key)
  {
    var once := Rewritten(tiers, key);
    forall i | 0 <= i < |tiers| ensures Rewritten(once, key)[i] == once[i] {
      assert RewriteTier(once[i], key) == once[i];
    }
  }
}
