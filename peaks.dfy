/** The peak-rating watermark, shared by the tenant-global rating
    (players.peak_elo, NULL until the first rating update) and the per-mode
    rating (player_mode_elos.peak_elo). */
module Peaks {
  import opened Wrappers

  /** The peak after a new rating is recorded: the new rating when there was
      no peak yet, otherwise the larger of the two. */
  function NextPeak(peak: Option<real>, rating: real): (r: real)
    ensures r >= rating
    ensures peak.Some? ==> r >= peak.value
    ensures r == rating || (peak.Some? && r == peak.value)
  {
    match peak
    case None => rating
    case Some(p) => if rating > p then rating else p
  }

  /** The peak after a sequence of rating updates, oldest first. */
  function PeakAfter(peak: Option<real>, ratings: seq<real>): Option<real>
    decreases |ratings|
  {
    if ratings == [] then peak
    else Some(NextPeak(PeakAfter(peak, ratings[..|ratings| - 1]), ratings[|ratings| - 1]))
  }

  /** Starting from no peak, the peak is the highest rating ever submitted. */
  lemma {:induction false} PeakIsHighestSubmitted(ratings: seq<real>)
    requires |ratings| > 0
    ensures PeakAfter(None, ratings).Some?
    ensures forall i :: 0 <= i < |ratings| ==> ratings[i] <= PeakAfter(None, ratings).value
    ensures exists i :: 0 <= i < |ratings| && ratings[i] == PeakAfter(None, ratings).value
    decreases |ratings|
  {
    var n := |ratings|;
    var p := ratings[..n - 1];
    if n > 1 {
      PeakIsHighestSubmitted(p);
      var k :| 0 <= k < |p| && p[k] == PeakAfter(None, p).value;
      assert ratings[k] == p[k];
      forall i | 0 <= i < n ensures ratings[i] <= PeakAfter(None, ratings).value {
        if i < n - 1 {
          assert ratings[i] == p[i];
        }
      }
    } else {
      assert p == [];
    }
  }

  /** Once set, the peak never decreases, whatever ratings follow. */
  lemma {:induction false} PeakNeverDecreases(peak: real, ratings: seq<real>)
    ensures PeakAfter(Some(peak), ratings).Some?
    ensures PeakAfter(Some(peak), ratings).value >= peak
    decreases |ratings|
  {
    if ratings != [] {
      PeakNeverDecreases(peak, ratings[..|ratings| - 1]);
    }
  }
}
