/** The player table (players, keyed by (discord_id, server_id)) and the
    value-level effect of the operations that change it. */
module Players {
  import opened Wrappers
  import opened Text
  import opened Streaks
  import opened Peaks

  /** (discord_id, server_id): a player id is unique only within a server. */
  type PlayerKey = (string, string)

  /** One players row. `streak` holds current_streak, best_win_streak and
      best_loss_streak; `externalName`/`externalSynced` are
      ut2k4_player_name/ut2k4_last_scraped. */
  datatype Player = Player(
    discordName: Option<string>,
    displayName: Option<string>,
    wins: int,
    losses: int,
    totalPugs: int,
    elo: real,
    peakElo: Option<real>,
    streak: Streak,
    registered: bool,
    externalName: Option<string>,
    externalSynced: Option<string>)

  type PlayerTable = map<PlayerKey, Player>

  const DefaultElo: real := 1000.0

  /** The row register_player inserts: no games, rating 1000, streak 0,
      registered, no peak yet. */
  function NewRegistered(discordName: Option<string>, displayName: Option<string>): Player {
    Player(discordName, displayName, 0, 0, 0, DefaultElo, None, Fresh, true, None, None)
  }

  /** The row bulk_update_elos inserts: only the rating is given, every other
      column takes its default (the default of peak_elo depends on how the
      column was created, see Migration.FreshPeakDefault and
      Migration.LegacyPeakDefault). */
  function NewImported(elo: real, peakDefault: Option<real>): Player {
    Player(None, None, 0, 0, 0, elo, peakDefault, Fresh, false, None, None)
  }

  /** register_player: an existing row only gets registered set (and is
      returned with it); otherwise a fresh registered row is inserted. */
  function Register(t: PlayerTable, k: PlayerKey, discordName: Option<string>, displayName: Option<string>)
    : (r: (PlayerTable, Player))
    ensures k in r.0 && r.0[k] == r.1 && r.1.registered
    ensures forall j :: j != k ==> (j in r.0 <==> j in t) && (j in t ==> r.0[j] == t[j])
    ensures k in t ==> r.1 == t[k].(registered := true)
    ensures k !in t ==> r.1 == NewRegistered(discordName, displayName)
  {
    if k in t then
      if !t[k].registered then
        var updated := t[k].(registered := true);
        (t[k := updated], updated)
      else (t, t[k])
    else
      var row := NewRegistered(discordName, displayName);
      (t[k := row], row)
  }

  /** Registering twice, with any names the second time, leaves the table
      and the returned row as the first call left them. */
  lemma RegisterIdempotent(t: PlayerTable, k: PlayerKey, n1: Option<string>, d1: Option<string>,
                           n2: Option<string>, d2: Option<string>)
    ensures Register(Register(t, k, n1, d1).0, k, n2, d2) == Register(t, k, n1, d1)
  {
  }

  /** update_player_stats on an existing row: the counter of the outcome and
      total_pugs rise by one, the streak follows Streaks.Record, and nothing
      else changes. */
  function RecordResult(p: Player, won: bool): (r: Player)
    ensures r.wins == p.wins + (if won then 1 else 0)
    ensures r.losses == p.losses + (if won then 0 else 1)
    ensures r.totalPugs == p.totalPugs + 1
    ensures r.streak == Record(p.streak, won)
    ensures r == p.(wins := r.wins, losses := r.losses, totalPugs := r.totalPugs, streak := r.streak)
  {
    if won then
      p.(wins := p.wins + 1, totalPugs := p.totalPugs + 1, streak := Record(p.streak, true))
    else
      p.(losses := p.losses + 1, totalPugs := p.totalPugs + 1, streak := Record(p.streak, false))
  }

  function Count(h: seq<bool>, o: bool): nat
    decreases |h|
  {
    if h == [] then 0 else Count(h[..|h| - 1], o) + (if h[|h| - 1] == o then 1 else 0)
  }

  /** A row after a sequence of results, oldest first. */
  function RecordResults(p: Player, h: seq<bool>): Player
    decreases |h|
  {
    if h == [] then p else RecordResult(RecordResults(p, h[..|h| - 1]), h[|h| - 1])
  }

  /** After any history: wins and losses count its outcomes, total_pugs
      counts all of them, and the streak is the history's replay. */
  lemma {:induction false} RecordResultsTally(p: Player, h: seq<bool>)
    ensures RecordResults(p, h).wins == p.wins + Count(h, true)
    ensures RecordResults(p, h).losses == p.losses + Count(h, false)
    ensures RecordResults(p, h).totalPugs == p.totalPugs + |h|
    ensures RecordResults(p, h).streak == Replay(p.streak, h)
    ensures RecordResults(p, h).elo == p.elo && RecordResults(p, h).peakElo == p.peakElo
    decreases |h|
  {
    if h != [] {
      RecordResultsTally(p, h[..|h| - 1]);
    }
  }

  /** update_player_elo on an existing row: the rating becomes the new value
      and the peak follows Peaks.NextPeak; nothing else changes. */
  function SetElo(p: Player, rating: real): (r: Player)
    ensures r.elo == rating
    ensures r.peakElo.Some? && r.peakElo.value >= r.elo
    ensures p.peakElo.Some? ==> r.peakElo.value >= p.peakElo.value
    ensures r.peakElo == Some(NextPeak(p.peakElo, rating))
    ensures r == p.(elo := r.elo, peakElo := r.peakElo)
  {
    p.(elo := rating, peakElo := Some(NextPeak(p.peakElo, rating)))
  }

  function SetElos(p: Player, ratings: seq<real>): Player
    decreases |ratings|
  {
    if ratings == [] then p else SetElo(SetElos(p, ratings[..|ratings| - 1]), ratings[|ratings| - 1])
  }

  /** After a sequence of rating updates the row's peak is the watermark of
      Peaks.PeakAfter: for a row registered without a peak, the highest
      rating ever submitted. */
  lemma {:induction false} SetElosPeak(p: Player, ratings: seq<real>)
    ensures SetElos(p, ratings).peakElo == PeakAfter(p.peakElo, ratings)
    ensures ratings != [] ==> SetElos(p, ratings).elo == ratings[|ratings| - 1]
    decreases |ratings|
  {
    if ratings != [] {
      SetElosPeak(p, ratings[..|ratings| - 1]);
    }
  }

  /** LOWER(discord_name) = LOWER(name) OR LOWER(display_name) = LOWER(name);
      a NULL name matches nothing. */
  predicate NameMatches(p: Player, name: string) {
    || (p.discordName.Some? && Lower(p.discordName.value) == Lower(name))
    || (p.displayName.Some? && Lower(p.displayName.value) == Lower(name))
  }

  // ---- bulk_update_elos ----

  /** The rating half of an import pair: a value float() accepts, or text it
      rejects. */
  datatype RatingInput = Rating(value: real) | Unparsable(text: string)

  /** One rejected pair: a non-numeric id, or a rating float() refused. */
  datatype RowError = NonNumericId(id: string) | Unconvertible(id: string, text: string)

  /** The message the source appends to its error list for a rejected pair. */
  function ErrorMessage(e: RowError): string {
    match e
    case NonNumericId(id) => "Invalid Discord ID '" + id + "': must be numeric"
    case Unconvertible(id, text) => "Discord ID " + id + ": could not convert string to float: '" + text + "'"
  }

  datatype Batch = Batch(table: PlayerTable, successes: nat, errors: seq<RowError>)

  /** Why a pair is rejected, if it is. */
  function Rejection(pair: (string, RatingInput)): Option<RowError> {
    if !IsDigits(pair.0) then Some(NonNumericId(pair.0))
    else if pair.1.Unparsable? then Some(Unconvertible(pair.0, pair.1.text))
    else None
  }

  /** One pair of the batch: rejected pairs add an error and change nothing;
      an accepted pair updates the rating of the existing row for that id in
      this server, or inserts a new row with that rating. */
  function ImportPair(b: Batch, server: string, peakDefault: Option<real>, pair: (string, RatingInput)): Batch {
    if !IsDigits(pair.0) then b.(errors := b.errors + [NonNumericId(pair.0)])
    else
      match pair.1
      case Unparsable(text) => b.(errors := b.errors + [Unconvertible(pair.0, text)])
      case Rating(v) =>
        var k := (pair.0, server);
        if k in b.table then Batch(b.table[k := b.table[k].(elo := v)], b.successes + 1, b.errors)
        else Batch(b.table[k := NewImported(v, peakDefault)], b.successes + 1, b.errors)
  }

  /** The whole batch, pair by pair in order: every pair is either a success
      or exactly one error. */
  function BulkImport(t: PlayerTable, server: string, peakDefault: Option<real>, pairs: seq<(string, RatingInput)>)
    : (r: Batch)
    ensures r.successes + |r.errors| == |pairs|
    decreases |pairs|
  {
    if pairs == [] then Batch(t, 0, [])
    else ImportPair(BulkImport(t, server, peakDefault, pairs[..|pairs| - 1]), server, peakDefault, pairs[|pairs| - 1])
  }

  /** The errors of a batch, one per rejected pair, in input order. */
  function Rejections(pairs: seq<(string, RatingInput)>): seq<RowError>
    decreases |pairs|
  {
    if pairs == [] then []
    else
      var rest := Rejections(pairs[..|pairs| - 1]);
      match Rejection(pairs[|pairs| - 1])
      case Some(e) => rest + [e]
      case None => rest
  }

  /** The rating of the last accepted pair for `id`, if any. */
  function LastAccepted(pairs: seq<(string, RatingInput)>, id: string): Option<real>
    decreases |pairs|
  {
    if pairs == [] then None
    else
      var last := pairs[|pairs| - 1];
      if last.0 == id && Rejection(last).None? then Some(last.1.value)
      else LastAccepted(pairs[..|pairs| - 1], id)
  }

  /** What a batch does to one row: a key of another server, or an id with no
      accepted pair, is untouched; otherwise the row holds the rating of the
      id's last accepted pair, and is the old row with only that rating
      changed, or a freshly imported row. The errors name exactly the rejected
      pairs, in order. */
  lemma {:induction false} BulkImportEffect(t: PlayerTable, server: string, peakDefault: Option<real>,
                                            pairs: seq<(string, RatingInput)>, k: PlayerKey)
    ensures BulkImport(t, server, peakDefault, pairs).errors == Rejections(pairs)
    ensures var after := BulkImport(t, server, peakDefault, pairs).table;
      if k.1 != server || LastAccepted(pairs, k.0).None? then
        (k in after <==> k in t) && (k in t ==> after[k] == t[k])
      else
        var v := LastAccepted(pairs, k.0).value;
        k in after && after[k] == (if k in t then t[k].(elo := v) else NewImported(v, peakDefault))
    decreases |pairs|
  {
    if pairs != [] {
      BulkImportEffect(t, server, peakDefault, pairs[..|pairs| - 1], k);
    }
  }

  /** The batch of the example below, as the store it computes. */
  lemma {:induction false} BulkImportExampleRun(server: string, peakDefault: Option<real>)
    ensures BulkImport(map[], server, peakDefault,
                       [("123", Rating(1050.0)), ("abc", Rating(999.0)), ("456", Rating(1100.0))])
      == Batch(map[("123", server) := NewImported(1050.0, peakDefault), ("456", server) := NewImported(1100.0, peakDefault)],
               2, [NonNumericId("abc")])
  {
    var p1 := [("123", Rating(1050.0))];
    var p2 := p1 + [("abc", Rating(999.0))];
    var p3 := p2 + [("456", Rating(1100.0))];
    assert IsDigits("123") && IsDigits("456");
    assert !IsAsciiDigit("abc"[0]);
    assert p1[..0] == [] && p2[..1] == p1 && p3[..2] == p2;
    var t1 := map[("123", server) := NewImported(1050.0, peakDefault)];
    assert BulkImport(map[], server, peakDefault, p1) == Batch(t1, 1, []);
    assert BulkImport(map[], server, peakDefault, p2) == Batch(t1, 1, [NonNumericId("abc")]);
    assert p3 == [("123", Rating(1050.0)), ("abc", Rating(999.0)), ("456", Rating(1100.0))];
  }

  /** The import of the three pairs ("123", 1050), ("abc", 999), ("456", 1100)
      into an empty server: two successes, one error naming "abc", and both
      numeric ids present with their ratings. */
  lemma BulkImportExample(server: string, peakDefault: Option<real>)
    ensures var r := BulkImport(map[], server, peakDefault,
                                [("123", Rating(1050.0)), ("abc", Rating(999.0)), ("456", Rating(1100.0))]);
      && r.successes == 2
      && r.errors == [NonNumericId("abc")]
      && ErrorMessage(r.errors[0]) == "Invalid Discord ID 'abc': must be numeric"
      && r.table.Keys == {("123", server), ("456", server)}
      && r.table[("123", server)].elo == 1050.0
      && r.table[("456", server)].elo == 1100.0
  {
    BulkImportExampleRun(server, peakDefault);
  }

  /** A bulk import changes the rating but not the peak, so a row can end
      with its rating above its peak. */
  lemma BulkImportCanLeavePeakBelowElo(server: string)
    ensures var k := ("7", server);
      var before := map[k := SetElo(NewRegistered(None, None), 1000.0)];
      var after := BulkImport(before, server, None, [("7", Rating(1200.0))]).table;
      after[k].elo == 1200.0 && after[k].peakElo == Some(1000.0)
  {
    assert IsDigits("7");
  }
}
