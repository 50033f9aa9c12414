/** DatabaseManager as an in-memory store: one field per table, each
    method changing only the tables its statements write, and each new
    state given by the value-level operation of the component modules. */
module Database {
  import opened Wrappers
  import opened Text
  import opened Streaks
  import Players
  import Modes
  import ModeRatings
  import Settings
  import Pugs
  import MapPools
  import Timeouts
  import Admins

  /** The messages bulk_update_elos returns, one per rejected pair. */
  function Messages(errors: seq<Players.RowError>): (r: seq<string>)
    ensures |r| == |errors|
    ensures forall i :: 0 <= i < |errors| ==> r[i] == Players.ErrorMessage(errors[i])
  {
    seq(|errors|, i requires 0 <= i < |errors| => Players.ErrorMessage(errors[i]))
  }

  /** The sort key of get_all_game_modes: the team size. */
  function TeamSizeOf(e: (string, Modes.GameMode)): real {
    e.1.teamSize as real
  }

  /** The rows add_pug appends all carry the new id, so team rows keep
      naming pugs up to the counter. */
  lemma NewRowsNumbered(rows: seq<Pugs.TeamRow>, id: int, red: seq<string>, blue: seq<string>)
    requires 0 < id
    requires forall r :: r in rows ==> 0 < r.pugId < id
    ensures forall r :: r in rows + Pugs.RowsFor(id, red, Pugs.Red) + Pugs.RowsFor(id, blue, Pugs.Blue) ==> 0 < r.pugId <= id
    ensures forall r :: r in rows  ==> r.pugId != id
  {
    var a := Pugs.RowsFor(id, red, Pugs.Red);
    var b := Pugs.RowsFor(id, blue, Pugs.Blue);
    forall r | r in rows + a + b ensures 0 < r.pugId <= id {
      if r !in rows {
        if r in a {
          var i :| 0 <= i < |a| && a[i] == r;
        } else {
          var i :| 0 <= i < |b| && b[i] == r;
        }
      }
    }
  }

  /** Every roster read after add_pug (Pugs.RostersReadBack). */
  lemma RostersAfterAdd(rows: seq<Pugs.TeamRow>, id: int, red: seq<string>, blue: seq<string>)
    requires forall r :: r in rows ==> r.pugId != id
    ensures var after := rows + Pugs.RowsFor(id, red, Pugs.Red) + Pugs.RowsFor(id, blue, Pugs.Blue);
      && Pugs.Members(after, id, Pugs.Red) == red
      && Pugs.Members(after, id, Pugs.Blue) == blue
      && forall j, side :: j != id ==> Pugs.Members(after, j, side) == Pugs.Members(rows, j, side)
  {
    Pugs.RostersReadBack(rows, id, red, blue, id, Pugs.Red);
    forall j, side | j != id
      ensures Pugs.Members(rows + Pugs.RowsFor(id, red, Pugs.Red) + Pugs.RowsFor(id, blue, Pugs.Blue), j, side) == Pugs.Members(rows, j, side)
    {
      Pugs.RostersReadBack(rows, id, red, blue, j, side);
    }
  }

  class DatabaseManager {
    var players: Players.PlayerTable
    var pugs: map<int, Pugs.Pug>
    var pugTeams: seq<Pugs.TeamRow>
    /** The AUTOINCREMENT counter of pugs. */
    var lastPugId: nat
    var timeouts: Timeouts.TimeoutTable
    var admins: Admins.AdminRows
    var modes: Modes.ModeTable
    var aliases: Modes.AliasTable
    var modeRatings: ModeRatings.RatingTable
    var maps: seq<MapPools.MapRow>
    var cooldowns: seq<MapPools.Cooldown>
    var settings: Settings.SettingTable
    /** The DEFAULT of players.peak_elo, which depends on how the column
        was created (see Migration.FreshPeakDefault and
        Migration.LegacyPeakDefault). */
    const peakEloDefault: Option<real>

    /** What every method keeps: pugs are numbered 1 to the counter with no
        gaps (pugs are never deleted), team rows name numbered pugs, the
        admin pairs and map rows are keys, and every streak and per-mode
        row is consistent. */
    ghost predicate Valid()
      reads this
    {
      && (forall id :: id in pugs <==> 0 < id <= lastPugId)
      && (forall r :: r in pugTeams ==> 0 < r.pugId <= lastPugId)
      && Admins.Distinct(admins)
      && (forall k :: k in players ==> Consistent(players[k].streak))
      && ModeRatings.AllSound(modeRatings)
      && MapPools.UniqueRows(maps)
      && Modes.TeamSizesValid(modes)
    }

    /** A store init_database has just created: every table empty and the
        default settings seeded. */
    constructor (peakEloDefault: Option<real>)
      ensures Valid()
      ensures players == map[] && pugs == map[] && pugTeams == [] && lastPugId == 0
      ensures timeouts == map[] && admins == [] && modes == map[] && aliases == map[]
      ensures modeRatings == map[] && maps == [] && cooldowns == []
      ensures settings == Settings.Seed(map[])
      ensures this.peakEloDefault == peakEloDefault
    {
      players := map[];
      pugs := map[];
      pugTeams := [];
      lastPugId := 0;
      timeouts := map[];
      admins := [];
      modes := map[];
      aliases := map[];
      modeRatings := map[];
      maps := [];
      cooldowns := [];
      settings := Settings.Seed(map[]);
      this.peakEloDefault := peakEloDefault;
    }

    // ------------------------------------------------------------------
    // players

    /** get_player: an empty server id is an error; otherwise the row, if
        any, and nothing is created. */
    function GetPlayer(discordId: string, serverId: string): (r: Result<Option<Players.Player>>)
      reads this
      ensures serverId == "" <==> r.Fault?
      ensures r.Fault? ==> r.reason == "server_id is required for get_player"
      ensures r.Ok? ==> (r.value.Some? <==> (discordId, serverId) in players)
      ensures r.Ok? && r.value.Some? ==> r.value.value == players[(discordId, serverId)]
    {
      if serverId == "" then Fault("server_id is required for get_player")
      else if (discordId, serverId) in players then Ok(Some(players[(discordId, serverId)]))
      else Ok(None)
    }

    /** register_player: fails like get_player on an empty server id;
        otherwise the row exists and is registered afterwards, an existing
        row keeping everything else. */
    method RegisterPlayer(discordId: string, serverId: string, discordName: Option<string>, displayName: Option<string>)
      returns (r: Result<Players.Player>)
      requires Valid()
      modifies this`players
      ensures Valid()
      ensures serverId == "" ==> r == Fault("server_id is required for get_player") && players == old(players)
      ensures serverId != "" ==>
        var reg := Players.Register(old(players), (discordId, serverId), discordName, displayName);
        players == reg.0 && r == Ok(reg.1)
      ensures r.Ok? ==> GetPlayer(discordId, serverId) == Ok(Some(r.value)) && r.value.registered
    {
      var existing := GetPlayer(discordId, serverId);
      if existing.Fault? {
        return Fault(existing.reason);
      }
      var reg := Players.Register(players, (discordId, serverId), discordName, displayName);
      players := reg.0;
      r := Ok(reg.1);
    }

    /** player_exists */
    function PlayerExists(discordId: string, serverId: string): (r: bool)
      reads this
      ensures r <==> (discordId, serverId) in players
      ensures serverId != "" ==> (r <==> GetPlayer(discordId, serverId).value.Some?)
    {
      (discordId, serverId) in players
    }

    /** update_player_names: both names of an existing row are overwritten;
        a missing row is not created. */
    method UpdatePlayerNames(discordId: string, serverId: string, discordName: Option<string>, displayName: Option<string>)
      requires Valid()
      modifies this`players
      ensures Valid()
      ensures var k := (discordId, serverId);
        players == if k in old(players) then old(players)[k := old(players)[k].(discordName := discordName, displayName := displayName)]
                   else old(players)
    {
      var k := (discordId, serverId);
      if k in players {
        players := players[k := players[k].(discordName := discordName, displayName := displayName)];
      }
    }

    /** find_player_by_name: some player of the server whose Discord name or
        display name equals `name` ignoring ASCII case, or none when no row
        matches. */
    method FindPlayerByName(serverId: string, name: string) returns (r: Option<string>)
      ensures r.Some? ==> (r.value, serverId) in players && Players.NameMatches(players[(r.value, serverId)], name)
      ensures r.None? ==> forall k :: k in players && k.1 == serverId ==> !Players.NameMatches(players[k], name)
    {
      if k :| k in players && k.1 == serverId && Players.NameMatches(players[k], name) {
        r := Some(k.0);
      } else {
        r := None;
      }
    }

    /** delete_player: reports whether the row existed; it is gone
        afterwards and every other row is kept. */
    method DeletePlayer(discordId: string, serverId: string) returns (existed: bool)
      requires Valid()
      modifies this`players
      ensures Valid()
      ensures existed <==> (discordId, serverId) in old(players)
      ensures players == old(players) - {(discordId, serverId)}
      ensures !PlayerExists(discordId, serverId)
    {
      existed := (discordId, serverId) in players;
      if existed {
        players := players - {(discordId, serverId)};
      }
    }

    /** update_player_stats: the result is recorded on an existing row
        (Players.RecordResult); a missing row is not created. */
    method UpdatePlayerStats(discordId: string, serverId: string, won: bool)
      requires Valid()
      modifies this`players
      ensures Valid()
      ensures var k := (discordId, serverId);
        players == if k in old(players) then old(players)[k := Players.RecordResult(old(players)[k], won)] else old(players)
    {
      var k := (discordId, serverId);
      if k in players {
        players := players[k := Players.RecordResult(players[k], won)];
      }
    }

    /** update_player_elo: the rating and the peak watermark of an existing
        row (Players.SetElo). */
    method UpdatePlayerElo(discordId: string, serverId: string, newElo: real)
      requires Valid()
      modifies this`players
      ensures Valid()
      ensures var k := (discordId, serverId);
        players == if k in old(players) then old(players)[k := Players.SetElo(old(players)[k], newElo)] else old(players)
    {
      var k := (discordId, serverId);
      if k in players {
        players := players[k := Players.SetElo(players[k], newElo)];
      }
    }

    /** update_ut2k4_info: the external name and the instant `now` (the
        caller's clock, as ISO text) on an existing row. */
    method UpdateUt2k4Info(discordId: string, serverId: string, name: Option<string>, now: string)
      requires Valid()
      modifies this`players
      ensures Valid()
      ensures var k := (discordId, serverId);
        players == if k in old(players) then old(players)[k := old(players)[k].(externalName := name, externalSynced := Some(now))]
                   else old(players)
    {
      var k := (discordId, serverId);
      if k in players {
        players := players[k := players[k].(externalName := name, externalSynced := Some(now))];
      }
    }

    /** update_player_total_pugs: sets total_pugs alone, and reports false
        when no row was updated. */
    method UpdatePlayerTotalPugs(discordId: string, serverId: string, totalPugs: int) returns (updated: bool)
      requires Valid()
      modifies this`players
      ensures Valid()
      ensures updated <==> (discordId, serverId) in old(players)
      ensures var k := (discordId, serverId);
        players == if k in old(players) then old(players)[k := old(players)[k].(totalPugs := totalPugs)] else old(players)
    {
      var k := (discordId, serverId);
      updated := k in players;
      if updated {
        players := players[k := players[k].(totalPugs := totalPugs)];
      }
    }

    /** get_all_players: the rows of one server, or of every server for an
        empty server id. */
    function GetAllPlayers(serverId: string): (r: Players.PlayerTable)
      reads this
      ensures forall k :: k in r <==> k in players && (serverId == "" || k.1 == serverId)
      ensures forall k :: k in r ==> r[k] == players[k]
    {
      map k | k in players && (serverId == "" || k.1 == serverId) :: players[k]
    }

    /** bulk_update_elos: the pairs in order, each either counted as a
        success or reported as one error; the table ends as
        Players.BulkImport says. */
    method BulkUpdateElos(serverId: string, updates: seq<(string, Players.RatingInput)>)
      returns (successes: nat, errorCount: nat, errors: seq<string>)
      requires Valid()
      modifies this`players
      ensures Valid()
      ensures var b := Players.BulkImport(old(players), serverId, peakEloDefault, updates);
        && players == b.table && successes == b.successes
        && errorCount == |b.errors| && errors == Messages(b.errors)
      ensures successes + errorCount == |updates|
    {
      successes, errorCount, errors := 0, 0, [];
      ghost var batch := Players.Batch(players, 0, []);
      var i := 0;
      while i < |updates|
        invariant 0 <= i <= |updates|
        invariant batch == Players.BulkImport(old(players), serverId, peakEloDefault, updates[..i])
        invariant players == batch.table && successes == batch.successes
        invariant errorCount == |batch.errors| && errors == Messages(batch.errors)
        invariant forall k :: k in players ==> Consistent(players[k].streak)
      {
        var (id, rating) := updates[i];
        assert updates[..i + 1][..i] == updates[..i];
        batch := Players.ImportPair(batch, serverId, peakEloDefault, updates[i]);
        if !IsDigits(id) {
          errorCount := errorCount + 1;
          errors := errors + [Players.ErrorMessage(Players.NonNumericId(id))];
        } else {
          match rating
          case Unparsable(text) =>
            errorCount := errorCount + 1;
            errors := errors + [Players.ErrorMessage(Players.Unconvertible(id, text))];
          case Rating(v) =>
            var k := (id, serverId);
            if k in players {
              players := players[k := players[k].(elo := v)];
            } else {
              players := players[k := Players.NewImported(v, peakEloDefault)];
            }
            successes := successes + 1;
        }
        i := i + 1;
      }
      assert updates[..i] == updates;
    }

    // ------------------------------------------------------------------
    // pugs

    /** The pug_teams inserts of add_pug for one side, one row per member
        in roster order. */
    method InsertTeam(id: int, members: seq<string>, team: Pugs.Team)
      modifies this`pugTeams
      ensures pugTeams == old(pugTeams) + Pugs.RowsFor(id, members, team)
    {
      var i := 0;
      while i < |members|
        invariant 0 <= i <= |members|
        invariant pugTeams == old(pugTeams) + Pugs.RowsFor(id, members[..i], team)
      {
        assert Pugs.RowsFor(id, members[..i + 1], team) == Pugs.RowsFor(id, members[..i], team) + [Pugs.TeamRow(id, members[i], team)];
        pugTeams := pugTeams + [Pugs.TeamRow(id, members[i], team)];
        i := i + 1;
      }
      assert members[..i] == members;
    }

    /** add_pug: the next AUTOINCREMENT id, a new active pug without a
        winner, and one team row per member, red first, in roster order,
        which read back as exactly the rosters given while every other
        pug's rosters stay as they were. */
    method AddPug(red: seq<string>, blue: seq<string>, gameMode: string, avgRedElo: real, avgBlueElo: real,
                  tiebreakerMap: Option<string>) returns (id: int)
      requires Valid()
      modifies this`pugs, this`pugTeams, this`lastPugId
      ensures Valid()
      ensures id == old(lastPugId) + 1 && lastPugId == id
      ensures forall j :: j in old(pugs) ==> j < id
      ensures pugs == old(pugs)[id := Pugs.NewPug(gameMode, avgRedElo, avgBlueElo, tiebreakerMap)]
      ensures pugTeams == old(pugTeams) + Pugs.RowsFor(id, red, Pugs.Red) + Pugs.RowsFor(id, blue, Pugs.Blue)
      ensures Pugs.Members(pugTeams, id, Pugs.Red) == red && Pugs.Members(pugTeams, id, Pugs.Blue) == blue
      ensures forall j, side :: j != id ==> Pugs.Members(pugTeams, j, side) == Pugs.Members(old(pugTeams), j, side)
    {
      id := lastPugId + 1;
      lastPugId := id;
      pugs := pugs[id := Pugs.NewPug(gameMode, avgRedElo, avgBlueElo, tiebreakerMap)];
      InsertTeam(id, red, Pugs.Red);
      InsertTeam(id, blue, Pugs.Blue);
      NewRowsNumbered(old(pugTeams), id, red, blue);
      RostersAfterAdd(old(pugTeams), id, red, blue);
      assert forall id :: id in pugs <==> 0 < id <= lastPugId;
    }

    /** update_pug_winner: only the winner of the pug changes. */
    method UpdatePugWinner(pugId: int, winner: string)
      requires Valid()
      modifies this`pugs
      ensures Valid()
      ensures pugs == if pugId in old(pugs) then old(pugs)[pugId := Pugs.WithWinner(old(pugs)[pugId], winner)] else old(pugs)
    {
      if pugId in pugs {
        pugs := pugs[pugId := Pugs.WithWinner(pugs[pugId], winner)];
      }
    }

    /** delete_pug: a soft delete; the row stays with status 'killed' and
        the team rows are kept. */
    method DeletePug(pugId: int)
      requires Valid()
      modifies this`pugs
      ensures Valid()
      ensures pugs == if pugId in old(pugs) then old(pugs)[pugId := Pugs.Kill(old(pugs)[pugId])] else old(pugs)
    {
      if pugId in pugs {
        pugs := pugs[pugId := Pugs.Kill(pugs[pugId])];
      }
    }

    /** get_recent_pugs: at most `limit` pugs (all for a negative limit),
        newest first with no pug skipped, each with its red and blue
        members (Pugs.RecentPugsSpec). */
    method GetRecentPugs(limit: int) returns (r: seq<Pugs.PugView>)
      requires Valid()
      ensures r == Pugs.RecentPugs(pugs, pugTeams, lastPugId, limit)
      ensures forall i :: 0 <= i < |r| ==> r[i].id in pugs && r[i] == Pugs.View(pugs, pugTeams, r[i].id)
      ensures limit >= 0 ==> |r| <= limit
      ensures forall i, j :: 0 <= i < j < |r| ==> r[i].id > r[j].id
      ensures limit < 0 || |r| < limit ==> forall x :: x in pugs ==> exists j :: 0 <= j < |r| && r[j].id == x
    {
      var ids := Pugs.RecentIds(pugs, lastPugId, limit);
      Pugs.RecentIdsSpec(pugs, lastPugId, limit);
      r := [];
      var i := 0;
      while i < |ids|
        invariant 0 <= i <= |ids|
        invariant |r| == i
        invariant forall k :: 0 <= k < i ==> r[k] == Pugs.View(pugs, pugTeams, ids[k])
      {
        r := r + [Pugs.View(pugs, pugTeams, ids[i])];
        i := i + 1;
      }
      assert r == Pugs.RecentPugs(pugs, pugTeams, lastPugId, limit) by {
        Pugs.RecentPugsShape(pugs, pugTeams, lastPugId, limit);
      }
      Pugs.RecentPugsSpec(pugs, pugTeams, lastPugId, limit);
    }

    /** get_last_pug_id: MAX(pug_id), none on an empty table. */
    function GetLastPugId(): (r: Option<int>)
      requires Valid()
      reads this
      ensures r.None? <==> pugs == map[]
      ensures r.Some? ==> r.value in pugs && forall j :: j in pugs ==> j <= r.value
    {
      if lastPugId == 0 then
        assert pugs == map[] by {
          assert forall x :: x !in pugs;
        }
        None
      else
        assert lastPugId in pugs;
        Some(lastPugId)
    }
  
    // ------------------------------------------------------------------
    // timeouts

    /** add_timeout: the end given by the latest call replaces any earlier
        one, even when it is sooner. */
    method AddTimeout(discordId: string, timeoutEnd: int)
      requires Valid()
      modifies this`timeouts
      ensures Valid()
      ensures timeouts == Timeouts.AddTimeout(old(timeouts), discordId, timeoutEnd)
    {
      timeouts := timeouts[discordId := timeoutEnd];
    }

    /** is_timed_out at instant `now`: an end still ahead is reported; an end
        reached is deleted and reported as no timeout. */
    method IsTimedOut(discordId: string, now: int) returns (timedOut: bool, until: Option<int>)
      requires Valid()
      modifies this`timeouts
      ensures Valid()
      ensures var c := Timeouts.IsTimedOut(old(timeouts), discordId, now);
        timedOut == c.timedOut && until == c.until && timeouts == c.table
      ensures timedOut <==> discordId in old(timeouts) && now < old(timeouts)[discordId]
    {
      if discordId in timeouts {
        var timeoutEnd := timeouts[discordId];
        if now < timeoutEnd {
          return true, Some(timeoutEnd);
        }
      }
      timeouts := timeouts - {discordId};
      return false, None;
    }

    // ------------------------------------------------------------------
    // pug admins

    method AddPugAdmin(discordId: string, serverId: string)
      requires Valid()
      modifies this`admins
      ensures Valid()
      ensures admins == Admins.Add(old(admins), discordId, serverId)
      ensures IsPugAdmin(discordId, serverId)
    {
      admins := Admins.Add(admins, discordId, serverId);
    }

    method RemovePugAdmin(discordId: string, serverId: string)
      requires Valid()
      modifies this`admins
      ensures Valid()
      ensures admins == Admins.Remove(old(admins), discordId, serverId)
      ensures !IsPugAdmin(discordId, serverId)
    {
      admins := Admins.Remove(admins, discordId, serverId);
    }

    /** is_pug_admin: the pair is a row; an admin of another server is not
        an admin here. */
    function IsPugAdmin(discordId: string, serverId: string): (r: bool)
      reads this
      ensures r <==> (discordId, serverId) in admins
    {
      (discordId, serverId) in admins
    }

    /** get_pug_admins: the ids of one server's admins, or of every admin for
        an empty server id. */
    function GetPugAdmins(serverId: string): (r: seq<string>)
      reads this
      ensures serverId != "" ==> forall d :: d in r <==> IsPugAdmin(d, serverId)
      ensures serverId == "" ==> forall d :: d in r <==> exists s :: (d, s) in admins
    {
      Admins.AdminsOf(admins, serverId)
    }

    // ------------------------------------------------------------------
    // game modes and aliases

    method AddGameMode(name: string, displayName: string, teamSize: int, description: string) returns (st: Status)
      requires Valid()
      modifies this`modes
      ensures Valid()
      ensures (st, modes) == Modes.AddGameMode(old(modes), name, displayName, teamSize, description)
      ensures st == Done ==> GetGameMode(name) == Some(Modes.GameMode(displayName, teamSize, description, false, None))
    {
      var r := Modes.AddGameMode(modes, name, displayName, teamSize, description);
      st, modes := r.0, r.1;
    }

    method RemoveGameMode(name: string) returns (st: Status)
      requires Valid()
      modifies this`modes
      ensures Valid()
      ensures (st, modes) == Modes.RemoveGameMode(old(modes), name)
      ensures st == Done ==> GetGameMode(name).None?
    {
      var r := Modes.RemoveGameMode(modes, name);
      st, modes := r.0, r.1;
    }

    /** get_game_mode: the mode stored under the lower-cased name. */
    function GetGameMode(name: string): (r: Option<Modes.GameMode>)
      reads this
      ensures r.Some? <==> Lower(name) in modes
      ensures r.Some? ==> r.value == modes[Lower(name)]
    {
      Modes.GetGameMode(modes, name)
    }

    /** get_all_game_modes: every mode once with its row, largest team size
        first. */
    method GetAllGameModes() returns (r: seq<(string, Modes.GameMode)>)
      ensures Descending(r, TeamSizeOf)
      ensures forall e :: e in r <==> e.0 in modes && e.1 == modes[e.0]
      ensures DistinctKeys(r)
    {
      r := [];
      var left := modes.Keys;
      while left != {}
        invariant left <= modes.Keys
        invariant Descending(r, TeamSizeOf)
        invariant forall e :: e in r <==> e.0 in modes && e.0 !in left && e.1 == modes[e.0]
        invariant DistinctKeys(r)
        decreases left
      {
        var name :| name in left;
        var entry := (name, modes[name]);
        var next := InsertDescending(r, entry, TeamSizeOf);
        ghost var k :| 0 <= k <= |r| && next == r[..k] + [entry] + r[k..];
        InsertKeepsDistinct(r, entry, k);
        r := next;
        left := left - {name};
      }
    }

    method RemoveMode(name: string) returns (st: Status)
      requires Valid()
      modifies this`modes, this`aliases
      ensures Valid()
      ensures (st, modes, aliases) == Modes.RemoveMode(old(modes), old(aliases), name)
    {
      var r := Modes.RemoveMode(modes, aliases, name);
      st, modes, aliases := r.0, r.1, r.2;
    }

    method AddModeAlias(alias: string, mode: string) returns (st: Status)
      requires Valid()
      modifies this`aliases
      ensures Valid()
      ensures (st, aliases) == Modes.AddModeAlias(modes, old(aliases), alias, mode)
      ensures st == Done ==> ResolveModeAlias(alias) == mode
    {
      var r := Modes.AddModeAlias(modes, aliases, alias, mode);
      st, aliases := r.0, r.1;
    }

    method RemoveModeAlias(alias: string) returns (st: Status)
      requires Valid()
      modifies this`aliases
      ensures Valid()
      ensures (st, aliases) == Modes.RemoveModeAlias(old(aliases), alias)
      ensures ResolveModeAlias(alias) == alias
    {
      var r := Modes.RemoveModeAlias(aliases, alias);
      st, aliases := r.0, r.1;
    }

    /** get_mode_aliases: the aliases pointing at the exact mode name. */
    function GetModeAliases(mode: string): (r: set<string>)
      reads this
      ensures forall a :: a in r <==> a in aliases && aliases[a] == mode
    {
      Modes.AliasesOf(aliases, mode)
    }

    /** resolve_mode_alias: the target of an alias, any other name as is. */
    function ResolveModeAlias(name: string): (r: string)
      reads this
      ensures name in aliases ==> r == aliases[name]
      ensures name !in aliases ==> r == name
    {
      Modes.Resolve(aliases, name)
    }

    // ------------------------------------------------------------------
    // settings

    function GetSetting(key: string): (r: Option<string>)
      reads this
      ensures r.Some? <==> key in settings
      ensures r.Some? ==> r.value == settings[key]
    {
      Settings.Get(settings, key)
    }

    method SetSetting(key: string, value: string)
      requires Valid()
      modifies this`settings
      ensures Valid()
      ensures settings == Settings.Set(old(settings), key, value)
      ensures GetSetting(key) == Some(value)
    {
      settings := settings[key := value];
    }

    /** is_scraping_enabled: on exactly when the setting is 'true'. */
    function IsScrapingEnabled(): (r: bool)
      reads this
      ensures r <==> GetSetting("scraping_enabled") == Some("true")
    {
      Settings.Switch(settings, "scraping_enabled")
    }

    method SetScrapingEnabled(enabled: bool)
      requires Valid()
      modifies this`settings
      ensures Valid()
      ensures settings == Settings.Set(old(settings), "scraping_enabled", Settings.SwitchText(enabled))
      ensures IsScrapingEnabled() == enabled
    {
      SetSetting("scraping_enabled", Settings.SwitchText(enabled));
    }

    /** is_per_mode_elo_enabled: a named mode's own flag, or the deprecated
        global switch for no name. */
    function IsPerModeEloEnabled(mode: string): (r: bool)
      reads this
      ensures mode != "" ==> (r <==> mode in modes && modes[mode].perModeElo)
      ensures mode == "" ==> (r <==> GetSetting("per_mode_elo_enabled") == Some("true"))
    {
      Settings.PerModeEloEnabled(modes, settings, mode)
    }

    method SetPerModeEloForMode(mode: string, enabled: bool) returns (st: Status)
      requires Valid()
      modifies this`modes
      ensures Valid()
      ensures (st, modes) == Modes.SetPerModeElo(old(modes), mode, enabled)
      ensures st == Done && mode != "" ==> IsPerModeEloEnabled(mode) == enabled
    {
      var r := Modes.SetPerModeElo(modes, mode, enabled);
      st, modes := r.0, r.1;
    }

    method SetModeEloPrefix(mode: string, prefix: string) returns (st: Status)
      requires Valid()
      modifies this`modes
      ensures Valid()
      ensures (st, modes) == Modes.SetEloPrefix(old(modes), mode, prefix)
      ensures st == Done && prefix != "" ==> GetEffectiveModeForElo(mode) == Lower(prefix)
    {
      var r := Modes.SetEloPrefix(modes, mode, prefix);
      st, modes := r.0, r.1;
      assert |Lower(prefix)| == |prefix|;
    }

    /** get_mode_elo_prefix: a non-empty prefix of an existing mode. */
    function GetModeEloPrefix(mode: string): (r: Option<string>)
      reads this
      ensures r.Some? ==> r.value != "" && mode in modes && modes[mode].eloPrefix == r
      ensures r.None? ==> mode !in modes || modes[mode].eloPrefix in {None, Some("")}
    {
      Modes.PrefixOf(modes, mode)
    }

    /** get_effective_mode_for_elo: the prefix when there is one, else the
        mode's own name. */
    function GetEffectiveModeForElo(mode: string): (r: string)
      reads this
      ensures GetModeEloPrefix(mode).Some? ==> r == GetModeEloPrefix(mode).value
      ensures GetModeEloPrefix(mode).None? ==> r == mode
    {
      Modes.EffectiveKey(modes, mode)
    }

    function GetModesWithPerModeElo(): (r: set<string>)
      reads this
      ensures forall m :: m in r <==> m in modes && modes[m].perModeElo
      ensures forall m :: m != "" ==> (m in r <==> IsPerModeEloEnabled(m))
    {
      Modes.PerModeEloModes(modes)
    }

    /** set_per_mode_elo_enabled: the deprecated global switch. */
    method SetPerModeEloEnabled(enabled: bool)
      requires Valid()
      modifies this`settings
      ensures Valid()
      ensures settings == Settings.Set(old(settings), "per_mode_elo_enabled", Settings.SwitchText(enabled))
      ensures IsPerModeEloEnabled("") == enabled
    {
      SetSetting("per_mode_elo_enabled", Settings.SwitchText(enabled));
    }

    // ------------------------------------------------------------------
    // per-mode ratings

    /** get_player_mode_elo: the row, or the defaults for a missing one. */
    function GetPlayerModeElo(discordId: string, serverId: string, mode: string): (r: ModeRatings.ModeRating)
      requires Valid()
      reads this
      ensures ModeRatings.Sound(r)
      ensures (discordId, serverId, mode) in modeRatings ==> r == modeRatings[(discordId, serverId, mode)]
      ensures (discordId, serverId, mode) !in modeRatings ==> r == ModeRatings.Initial(ModeRatings.DefaultRating)
    {
      ModeRatings.Lookup(modeRatings, (discordId, serverId, mode))
    }

    method InitPlayerModeElo(discordId: string, serverId: string, mode: string, startingElo: real)
      requires Valid()
      modifies this`modeRatings
      ensures Valid()
      ensures modeRatings == ModeRatings.Init(old(modeRatings), (discordId, serverId, mode), startingElo)
    {
      var k := (discordId, serverId, mode);
      if k !in modeRatings {
        modeRatings := modeRatings[k := ModeRatings.Initial(startingElo)];
      }
    }

    /** update_player_mode_elo: reads the stored peak, raises it to the new
        rating, and writes the row back with the counters carried over. */
    method UpdatePlayerModeElo(discordId: string, serverId: string, mode: string, newElo: real)
      requires Valid()
      modifies this`modeRatings
      ensures Valid()
      ensures modeRatings == ModeRatings.SetModeElo(old(modeRatings), (discordId, serverId, mode), newElo)
    {
      var k := (discordId, serverId, mode);
      var peak := if k in modeRatings then modeRatings[k].peak else newElo;
      if newElo > peak {
        peak := newElo;
      }
      var row := if k in modeRatings then modeRatings[k].(elo := newElo, peak := peak)
                 else ModeRatings.ModeRating(newElo, 0, 0, peak, Fresh);
      modeRatings := modeRatings[k := row];
    }

    /** update_player_mode_stats: creates the row with the default rating if
        needed, then updates the counters and streak columns one by one. */
    method UpdatePlayerModeStats(discordId: string, serverId: string, mode: string, won: bool)
      requires Valid()
      modifies this`modeRatings
      ensures Valid()
      ensures modeRatings == ModeRatings.UpdateModeStats(old(modeRatings), (discordId, serverId, mode), won)
    {
      InitPlayerModeElo(discordId, serverId, mode, ModeRatings.DefaultRating);
      var k := (discordId, serverId, mode);
      var row := modeRatings[k];
      var wins, losses, current, bestWin, bestLoss := row.wins, row.losses, row.streak.current, row.streak.bestWin, row.streak.bestLoss;
      if won {
        wins := wins + 1;
        current := if current >= 0 then current + 1 else 1;
        if current > bestWin {
          bestWin := current;
        }
      } else {
        losses := losses + 1;
        current := if current <= 0 then current - 1 else -1;
        if Abs(current) > bestLoss {
          bestLoss := Abs(current);
        }
      }
      ghost var created := modeRatings;
      assert row.(wins := wins, losses := losses, streak := Streak(current, bestWin, bestLoss))
        == ModeRatings.RecordModeResult(row, won) by {
        assert Streak(current, bestWin, bestLoss) == Record(row.streak, won);
      }
      modeRatings := modeRatings[k := row.(wins := wins, losses := losses, streak := Streak(current, bestWin, bestLoss))];
      assert modeRatings == ModeRatings.UpdateModeStats(old(modeRatings), k, won) by {
        assert created == ModeRatings.Init(old(modeRatings), k, ModeRatings.DefaultRating);
      }
    }

    /** set_player_mode_elo: refuses a mode name that is not stored, and
        otherwise sets the rating like update_player_mode_elo. */
    method SetPlayerModeElo(discordId: string, serverId: string, mode: string, newElo: real) returns (st: Status)
      requires Valid()
      modifies this`modeRatings
      ensures Valid()
      ensures st == Done <==> mode in modes
      ensures st != Done ==> st == Failed("Mode '" + mode + "' does not exist!") && modeRatings == old(modeRatings)
      ensures st == Done ==> modeRatings == ModeRatings.SetModeElo(old(modeRatings), (discordId, serverId, mode), newElo)
    {
      if mode !in modes {
        return Failed("Mode '" + mode + "' does not exist!");
      }
      UpdatePlayerModeElo(discordId, serverId, mode, newElo);
      st := Done;
    }

    /** get_all_player_mode_elos: each rating row of the player on the
        server once, keyed by its mode, highest rating first. */
    method GetAllPlayerModeElos(discordId: string, serverId: string) returns (r: seq<(string, ModeRatings.ModeRating)>)
      ensures Descending(r, ModeRatings.RatingOf)
      ensures forall e :: e in r <==> (discordId, serverId, e.0) in modeRatings && e.1 == modeRatings[(discordId, serverId, e.0)]
      ensures DistinctKeys(r)
    {
      r := [];
      var left := set k | k in modeRatings && k.0 == discordId && k.1 == serverId :: k.2;
      while left != {}
        invariant forall m :: m in left ==> (discordId, serverId, m) in modeRatings
        invariant Descending(r, ModeRatings.RatingOf)
        invariant forall e :: e in r <==> (discordId, serverId, e.0) in modeRatings && e.0 !in left
                                          && e.1 == modeRatings[(discordId, serverId, e.0)]
        invariant DistinctKeys(r)
        decreases left
      {
        var mode :| mode in left;
        var entry := (mode, modeRatings[(discordId, serverId, mode)]);
        var next := InsertDescending(r, entry, ModeRatings.RatingOf);
        ghost var k :| 0 <= k <= |r| && next == r[..k] + [entry] + r[k..];
        InsertKeepsDistinct(r, entry, k);
        r := next;
        left := left - {mode};
      }
    }

    // ------------------------------------------------------------------
    // map pools and cooldowns

    method AddMap(serverId: string, modePrefix: string, mapName: string) returns (st: Status)
      requires Valid()
      modifies this`maps
      ensures Valid()
      ensures (st, maps) == MapPools.AddMap(old(maps), serverId, modePrefix, mapName)
      ensures mapName in GetMapsForMode(serverId, modePrefix)
    {
      var r := MapPools.AddMap(maps, serverId, modePrefix, mapName);
      st, maps := r.0, r.1;
    }

    method RemoveMap(serverId: string, modePrefix: string, mapName: string) returns (st: Status)
      requires Valid()
      modifies this`maps
      ensures Valid()
      ensures (st, maps) == MapPools.RemoveMap(old(maps), serverId, modePrefix, mapName)
      ensures mapName !in GetMapsForMode(serverId, modePrefix)
    {
      var r := MapPools.RemoveMap(maps, serverId, modePrefix, mapName);
      st, maps := r.0, r.1;
    }

    /** get_maps_for_mode: the pool's names in ascending order. */
    function GetMapsForMode(serverId: string, modePrefix: string): (r: seq<string>)
      reads this
      ensures Ascending(r)
      ensures forall n :: n in r <==> MapPools.MapRow(serverId, Lower(modePrefix), n) in maps
    {
      MapPools.MapsForMode(maps, serverId, modePrefix)
    }

    /** get_all_maps_grouped: each prefix of the server with its pool in
        ascending order. */
    function GetAllMapsGrouped(serverId: string): (r: map<string, seq<string>>)
      reads this
      ensures forall p :: p in r <==> exists n :: MapPools.MapRow(serverId, p, n) in maps
      ensures forall p :: p in r ==> Ascending(r[p]) && forall n :: n in r[p] <==> MapPools.MapRow(serverId, p, n) in maps
    {
      MapPools.AllMapsGrouped(maps, serverId)
    }

    method AddMapToCooldown(serverId: string, modePrefix: string, mapName: string)
      requires Valid()
      modifies this`cooldowns
      ensures Valid()
      ensures cooldowns == MapPools.AddCooldown(old(cooldowns), serverId, modePrefix, mapName)
      ensures GetMapsOnCooldown(serverId, modePrefix, 1) == [mapName]
    {
      MapPools.RecentAfterAdd(cooldowns, serverId, modePrefix, mapName);
      cooldowns := cooldowns + [MapPools.Cooldown(serverId, Lower(modePrefix), mapName)];
    }

    /** get_maps_on_cooldown: the newest `count` uses of the pool (all of
        them for a negative count or a smaller pool), newest first; each is
        a logged use. */
    function GetMapsOnCooldown(serverId: string, modePrefix: string, count: int): (r: seq<string>)
      reads this
      ensures var p := MapPools.Pool(cooldowns, serverId, Lower(modePrefix));
        |r| == (if 0 <= count < |p| then count else |p|) &&
        forall i :: 0 <= i < |r| ==> r[i] == p[|p| - 1 - i]
      ensures count >= 0 ==> |r| <= count
      ensures forall m :: m in r ==> MapPools.Cooldown(serverId, Lower(modePrefix), m) in cooldowns
    {
      MapPools.RecentFromLog(cooldowns, serverId, modePrefix, count);
      MapPools.Recent(cooldowns, serverId, modePrefix, count)
    }

    /** clear_old_cooldowns: only the newest `keep` uses of the pool stay;
        what get_maps_on_cooldown reports for up to `keep` names, and every
        other pool, is unchanged. */
    method ClearOldCooldowns(serverId: string, modePrefix: string, keep: int)
      requires Valid()
      modifies this`cooldowns
      ensures Valid()
      ensures cooldowns == MapPools.Pruned(old(cooldowns), serverId, Lower(modePrefix), keep)
      ensures forall n :: 0 <= n <= keep ==>
        GetMapsOnCooldown(serverId, modePrefix, n) == MapPools.Recent(old(cooldowns), serverId, modePrefix, n)
    {
      cooldowns := MapPools.Pruned(cooldowns, serverId, Lower(modePrefix), keep);
      forall n | 0 <= n <= keep
        ensures MapPools.Recent(cooldowns, serverId, modePrefix, n) == MapPools.Recent(old(cooldowns), serverId, modePrefix, n)
      {
        MapPools.RecentSurvivesPruning(old(cooldowns), serverId, modePrefix, keep, n);
      }
    }
  }
}
