/** The per-mode rating track: player_mode_elos rows keyed by
    (discord_id, server_id, mode_name), where mode_name is the effective
    rating key of a mode (its prefix, or its own name). */
module ModeRatings {
  import opened Wrappers
  import opened Streaks
  import opened Peaks

  /** (discord_id, server_id, mode_name) */
  type RatingKey = (string, string, string)

  /** One player_mode_elos row; peak_elo is never NULL on this table, since
      every insert supplies it. */
  datatype ModeRating = ModeRating(elo: real, wins: int, losses: int, peak: real, streak: Streak)

  type RatingTable = map<RatingKey, ModeRating>

  const DefaultRating: real := 1000.0

  /** The row init_player_mode_elo inserts: the starting rating as both elo
      and peak, and the column defaults for the rest. */
  function Initial(starting: real): (r: ModeRating)
    ensures r.elo == starting && r.peak == starting
    ensures r.wins == 0 && r.losses == 0 && r.streak == Fresh
  {
    ModeRating(starting, 0, 0, starting, Fresh)
  }

  /** A row is sound when its peak covers its rating and its streak columns
      are consistent. */
  predicate Sound(r: ModeRating) {
    r.peak >= r.elo && Consistent(r.streak) && r.wins >= 0 && r.losses >= 0
  }

  ghost predicate AllSound(t: RatingTable) {
    forall k :: k in t ==> Sound(t[k])
  }

  /** get_player_mode_elo: the stored row, or the defaults (1000, no games,
      peak 1000) for a player who has none; nothing is inserted. */
  function Lookup(t: RatingTable, k: RatingKey): (r: ModeRating)
    ensures k in t ==> r == t[k]
    ensures k !in t ==> r == Initial(DefaultRating)
    ensures AllSound(t) ==> Sound(r)
  {
    if k in t then t[k] else Initial(DefaultRating)
  }

  /** init_player_mode_elo: INSERT OR IGNORE, so an existing row wins. */
  function Init(t: RatingTable, k: RatingKey, starting: real): (r: RatingTable)
    ensures r.Keys == t.Keys + {k}
    ensures forall j :: j in t ==> r[j] == t[j]
    ensures k !in t ==> r[k] == Initial(starting)
    ensures AllSound(t) ==> AllSound(r)
  {
    if k in t then t else t[k := Initial(starting)]
  }

  lemma InitIdempotent(t: RatingTable, k: RatingKey, a: real, b: real)
    ensures Init(Init(t, k, a), k, b) == Init(t, k, a)
  {
  }

  /** The row update_player_mode_elo writes over `row`: the new rating, the
      peak raised to it (or the new rating when there was no row), and the
      counters and streak columns carried over (zero for a new row). */
  function Upsert(row: Option<ModeRating>, newElo: real): (r: ModeRating)
    ensures r.elo == newElo && r.peak >= newElo
    ensures row.Some? ==> r.peak >= row.value.peak
    ensures row.Some? ==> r.wins == row.value.wins && r.losses == row.value.losses && r.streak == row.value.streak
    ensures row.None? ==> r == Initial(newElo)
    ensures row.Some? && Sound(row.value) ==> Sound(r)
  {
    var peak := NextPeak(if row.Some? then Some(row.value.peak) else None, newElo);
    match row
    case None => ModeRating(newElo, 0, 0, peak, Fresh)
    case Some(p) => ModeRating(newElo, p.wins, p.losses, peak, p.streak)
  }

  function Row(t: RatingTable, k: RatingKey): Option<ModeRating> {
    if k in t then Some(t[k]) else None
  }

  /** update_player_mode_elo on the table: only row `k` changes. */
  function SetModeElo(t: RatingTable, k: RatingKey, newElo: real): (r: RatingTable)
    ensures r.Keys == t.Keys + {k}
    ensures forall j :: j in t && j != k ==> r[j] == t[j]
    ensures r[k] == Upsert(Row(t, k), newElo)
    ensures AllSound(t) ==> AllSound(r)
  {
    t[k := Upsert(Row(t, k), newElo)]
  }

  /** The row after a sequence of update_player_mode_elo calls, oldest
      first. */
  function SetModeElos(row: Option<ModeRating>, ratings: seq<real>): Option<ModeRating>
    decreases |ratings|
  {
    if ratings == [] then row
    else Some(Upsert(SetModeElos(row, ratings[..|ratings| - 1]), ratings[|ratings| - 1]))
  }

  /** Starting from a missing row, a player's per-mode peak is the highest
      rating that was set, and the rating the last one. */
  lemma {:induction false} ModePeakIsHighestSet(ratings: seq<real>)
    requires |ratings| > 0
    ensures SetModeElos(None, ratings).Some?
    ensures SetModeElos(None, ratings).value.peak == PeakAfter(None, ratings).value
    ensures SetModeElos(None, ratings).value.elo == ratings[|ratings| - 1]
    ensures forall i :: 0 <= i < |ratings| ==> ratings[i] <= SetModeElos(None, ratings).value.peak
    decreases |ratings|
  {
    var p := ratings[..|ratings| - 1];
    if p != [] {
      ModePeakIsHighestSet(p);
    }
    PeakIsHighestSubmitted(ratings);
  }

  /** update_player_mode_elo never alters the counters or the streak: a
      sequence of rating updates on an existing row keeps them. */
  lemma {:induction false} SetModeElosKeepCounters(row: ModeRating, ratings: seq<real>)
    ensures SetModeElos(Some(row), ratings).Some?
    ensures var r := SetModeElos(Some(row), ratings).value;
      r.wins == row.wins && r.losses == row.losses && r.streak == row.streak && r.peak >= row.peak
    decreases |ratings|
  {
    if ratings != [] {
      SetModeElosKeepCounters(row, ratings[..|ratings| - 1]);
    }
  }

  /** One result on a per-mode row: the same streak rule as the global
      track; the rating and the peak are left alone. */
  function RecordModeResult(r: ModeRating, won: bool): (n: ModeRating)
    ensures won ==> n.wins == r.wins + 1 && n.losses == r.losses
    ensures !won ==> n.losses == r.losses + 1 && n.wins == r.wins
    ensures n.elo == r.elo && n.peak == r.peak
    ensures n.streak == Record(r.streak, won)
    ensures Sound(r) ==> Sound(n)
  {
    if won then r.(wins := r.wins + 1, streak := Record(r.streak, won))
    else r.(losses := r.losses + 1, streak := Record(r.streak, won))
  }

  /** update_player_mode_stats on the table: the row is created with the
      default rating when missing, then the result is recorded on it. */
  function UpdateModeStats(t: RatingTable, k: RatingKey, won: bool): (r: RatingTable)
    ensures r.Keys == t.Keys + {k}
    ensures forall j :: j in t && j != k ==> r[j] == t[j]
    ensures r[k] == RecordModeResult(Lookup(t, k), won)
    ensures AllSound(t) ==> AllSound(r)
  {
    var created := Init(t, k, DefaultRating);
    created[k := RecordModeResult(created[k], won)]
  }

  /** The sort key of get_all_player_mode_elos: a row's rating. */
  function RatingOf(e: (string, ModeRating)): real {
    e.1.elo
  }
}
