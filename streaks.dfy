/** The streak rule of the rating engine, shared by the tenant-global track
    (players.current_streak, best_win_streak, best_loss_streak) and the
    per-mode track (the same columns of player_mode_elos). */
module Streaks {

  function Max(a: int, b: int): int {
    if a >= b then a else b
  }

  function Abs(a: int): nat {
    if a >= 0 then a else -a
  }

  /** `current` is positive for that many wins in a row, negative for that
      many losses in a row, zero before the first result. The two best
      values are the longest runs seen, both stored as positive numbers. */
  datatype Streak = Streak(current: int, bestWin: int, bestLoss: int)

  /** The streak columns of a row that has not played yet. */
  const Fresh := Streak(0, 0, 0)

  /** The best values are non-negative and cover the run in progress. */
  predicate Consistent(s: Streak) {
    && s.bestWin >= 0 && s.bestLoss >= 0
    && s.bestWin >= s.current && s.bestLoss >= -s.current
  }

  /** One result: a win extends a winning streak or starts a new one at 1, a
      loss extends a losing streak or starts a new one at -1, and the best
      value of the matching kind becomes the larger of itself and the new
      run; the other best value is left alone. */
  function Record(s: Streak, won: bool): (r: Streak)
    ensures r.current > 0 <==> won
    ensures r.current != 0
    ensures r.bestWin >= s.bestWin && r.bestLoss >= s.bestLoss
    ensures won ==> r.bestLoss == s.bestLoss && r.bestWin >= r.current
    ensures !won ==> r.bestWin == s.bestWin && r.bestLoss >= -r.current
    ensures Consistent(s) ==> Consistent(r)
  {
    if won then
      var next := if s.current >= 0 then s.current + 1 else 1;
      Streak(next, Max(s.bestWin, next), s.bestLoss)
    else
      var next := if s.current <= 0 then s.current - 1 else -1;
      Streak(next, s.bestWin, Max(s.bestLoss, Abs(next)))
  }

  /** The streak after a sequence of results, oldest first. */
  function Replay(s: Streak, outcomes: seq<bool>): Streak
    decreases |outcomes|
  {
    if outcomes == [] then s
    else Record(Replay(s, outcomes[..|outcomes| - 1]), outcomes[|outcomes| - 1])
  }

  lemma {:induction false} ReplayKeepsConsistent(s: Streak, outcomes: seq<bool>)
    requires Consistent(s)
    ensures Consistent(Replay(s, outcomes))
    decreases |outcomes|
  {
    if outcomes != [] {
      ReplayKeepsConsistent(s, outcomes[..|outcomes| - 1]);
    }
  }

  /** How many of the last results equal `o`, counted back to the first
      one that differs. */
  function TrailingRun(h: seq<bool>, o: bool): nat
    decreases |h|
  {
    if h == [] || h[|h| - 1] != o then 0 else 1 + TrailingRun(h[..|h| - 1], o)
  }

  /** The signed streak a history ends with: the trailing run of its last
      result, negative for losses; zero for no history. */
  function SignedRun(h: seq<bool>): int {
    if h == [] then 0
    else if h[|h| - 1] then TrailingRun(h, true)
    else -(TrailingRun(h, false) as int)
  }

  /** h[i..j] is a block of consecutive results all equal to `o`. */
  ghost predicate IsRun(h: seq<bool>, i: int, j: int, o: bool) {
    0 <= i <= j <= |h| && forall k :: i <= k < j ==> h[k] == o
  }

  lemma {:induction false} TrailingRunIsRun(h: seq<bool>, o: bool)
    ensures TrailingRun(h, o) <= |h|
    ensures IsRun(h, |h| - TrailingRun(h, o), |h|, o)
    decreases |h|
  {
    if h != [] && h[|h| - 1] == o {
      TrailingRunIsRun(h[..|h| - 1], o);
    }
  }

  lemma {:induction false} RunAtEndIsTrailing(h: seq<bool>, i: int, o: bool)
    requires IsRun(h, i, |h|, o)
    ensures |h| - i <= TrailingRun(h, o)
    decreases |h|
  {
    if i < |h| {
      var p := h[..|h| - 1];
      assert IsRun(p, i, |p|, o);
      RunAtEndIsTrailing(p, i, o);
    }
  }

  /** A fresh row's streak after a history is the signed length of the run
      the history ends with: positive exactly when the last result was a win,
      counting the wins since the last loss (and symmetrically for losses). */
  lemma {:induction false} ReplayCurrent(h: seq<bool>)
    ensures Replay(Fresh, h).current == SignedRun(h)
    decreases |h|
  {
    if h != [] {
      var p := h[..|h| - 1];
      ReplayCurrent(p);
      assert h[..|h| - 1] == p;
    }
  }

  function BestOf(s: Streak, o: bool): int {
    if o then s.bestWin else s.bestLoss
  }

  /** A fresh row's best win (loss) streak after a history is the length of
      the longest block of consecutive wins (losses) in it: no block is
      longer, and one block is exactly that long. */
  lemma {:induction false} ReplayBest(h: seq<bool>, o: bool)
    ensures forall i, j :: IsRun(h, i, j, o) ==> j - i <= BestOf(Replay(Fresh, h), o)
    ensures exists i, j :: IsRun(h, i, j, o) && j - i == BestOf(Replay(Fresh, h), o)
    decreases |h|
  {
    if h == [] {
      assert IsRun(h, 0, 0, o);
    } else {
      var p := h[..|h| - 1];
      var x := h[|h| - 1];
      ReplayBest(p, o);
      ReplayCurrent(h);
      var before := Replay(Fresh, p);
      var after := Replay(Fresh, h);
      assert after == Record(before, x);
      forall i, j | IsRun(h, i, j, o) ensures j - i <= BestOf(after, o) {
        if j < |h| {
          assert IsRun(p, i, j, o);
        } else if i < j {
          RunAtEndIsTrailing(h, i, o);
          assert x == o;
        }
      }
      var i0, j0 :| IsRun(p, i0, j0, o) && j0 - i0 == BestOf(before, o);
      assert IsRun(h, i0, j0, o);
      if x == o {
        TrailingRunIsRun(h, o);
        assert BestOf(after, o) == Max(BestOf(before, o), TrailingRun(h, o));
      } else {
        assert BestOf(after, o) == BestOf(before, o);
      }
    }
  }
}
