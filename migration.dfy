/** The schema migrator of init_database, over an untyped picture of the
    store: tables with ordered columns (each with its DEFAULT) and rows that
    map column names to values. Every step is guarded by the same probe as
    in the code, so running the migrator on its own result changes
    nothing. */
module Migration {
  import opened Wrappers
  import opened Text

  /** A stored value. `Now` stands for the text CURRENT_TIMESTAMP yields. */
  datatype Value = Null | Int(i: int) | Real(r: real) | Str(s: string) | Now

  datatype Column = Column(name: string, default: Value)

  type Row = map<string, Value>

  datatype Table = Table(columns: seq<Column>, rows: seq<Row>)

  type Schema = map<string, Table>

  /** A missing column reads as NULL. */
  function Get(r: Row, c: string): Value {
    if c in r then r[c] else Null
  }

  /** Python's dict.get over a row built with dict(zip(columns, row)): the
      stored value whenever the column exists, even a NULL one. */
  function DictGet(r: Row, c: string, otherwise: Value): Value {
    if c in r then r[c] else otherwise
  }

  function HasColumn(t: Table, c: string): bool {
    exists i :: 0 <= i < |t.columns| && t.columns[i].name == c
  }

  /** The probe `SELECT c FROM table LIMIT 1` succeeds. */
  function Has(s: Schema, table: string, c: string): bool {
    table in s && HasColumn(s[table], c)
  }

  /** Every table other than those in `names` is as it was. */
  ghost predicate SameOutside(s: Schema, t: Schema, names: set<string>) {
    forall n :: n !in names ==> (n in s <==> n in t) && (n in s ==> s[n] == t[n])
  }

  /** The row an INSERT naming the columns of `given` adds: the given values,
      and each other column's DEFAULT. */
  function NewRow(cols: seq<Column>, given: map<string, Value>): (r: Row)
    ensures forall i :: 0 <= i < |cols| ==> cols[i].name in r
    decreases |cols|
  {
    if cols == [] then map[]
    else
      var c := cols[|cols| - 1];
      NewRow(cols[..|cols| - 1], given)[c.name := if c.name in given then given[c.name] else c.default]
  }

  /** CREATE TABLE IF NOT EXISTS. */
  function Create(s: Schema, name: string, cols: seq<Column>): (r: Schema)
    ensures name in r && s.Keys <= r.Keys
    ensures name in s ==> r == s
    ensures name !in s ==> r[name] == Table(cols, [])
    ensures SameOutside(s, r, {name})
    ensures forall n, c :: Has(s, n, c) ==> Has(r, n, c)
  {
    if name in s then s else s[name := Table(cols, [])]
  }

  function WithColumnValue(rows: seq<Row>, col: Column): (r: seq<Row>)
    ensures |r| == |rows|
    ensures forall i :: 0 <= i < |rows| ==> r[i] == rows[i][col.name := col.default]
  {
    seq(|rows|, i requires 0 <= i < |rows| => rows[i][col.name := col.default])
  }

  /** ALTER TABLE ADD COLUMN: every existing row takes the DEFAULT; a
      duplicate column is an error. */
  function AddColumn(s: Schema, table: string, col: Column): (r: Result<Schema>)
    ensures r.Ok? <==> table in s && !HasColumn(s[table], col.name)
    ensures table !in s ==> r == Fault("no such table: " + table)
    ensures table in s && HasColumn(s[table], col.name) ==> r == Fault("duplicate column name: " + col.name)
    ensures r.Ok? ==> && SameOutside(s, r.value, {table}) && table in r.value
                      && r.value[table].columns == s[table].columns + [col]
                      && r.value[table].rows == WithColumnValue(s[table].rows, col)
  {
    if table !in s then Fault("no such table: " + table)
    else if HasColumn(s[table], col.name) then Fault("duplicate column name: " + col.name)
    else
      var t := s[table];
      Ok(s[table := Table(t.columns + [col], WithColumnValue(t.rows, col))])
  }

  lemma AddColumnKeepsColumns(s: Schema, table: string, col: Column)
    requires AddColumn(s, table, col).Ok?
    ensures forall n, c :: Has(s, n, c) ==> Has(AddColumn(s, table, col).value, n, c)
    ensures Has(AddColumn(s, table, col).value, table, col.name)
  {
    var t := AddColumn(s, table, col).value;
    forall n, c | Has(s, n, c) ensures Has(t, n, c) {
      if n == table {
        var i :| 0 <= i < |s[n].columns| && s[n].columns[i].name == c;
        assert t[n].columns[i] == s[n].columns[i];
      }
    }
    assert t[table].columns[|s[table].columns|] == col;
  }

  /** A probe-guarded ALTER TABLE ADD COLUMN. */
  function AddIfMissing(s: Schema, table: string, col: Column): (r: Result<Schema>)
    requires table in s
    ensures r.Ok?
    ensures SameOutside(s, r.value, {table}) && table in r.value
    ensures forall n, c :: Has(s, n, c) ==> Has(r.value, n, c)
    ensures Has(r.value, table, col.name)
    ensures Has(s, table, col.name) ==> r.value == s
  {
    if Has(s, table, col.name) then Ok(s)
    else
      AddColumnKeepsColumns(s, table, col);
      AddColumn(s, table, col)
  }

  // ---------------------------------------------------------------------
  // SQLite comparison

  function IsNumeric(v: Value): bool {
    v.Int? || v.Real?
  }

  function Numeric(v: Value): real
    requires IsNumeric(v)
  {
    if v.Int? then v.i as real else v.r
  }

  /** `a < b` in a WHERE clause: false when either side is NULL, numbers by
      value, every number below every text, text by the BINARY collation.
      Timestamps are never compared here and compare false. */
  function SqlLess(a: Value, b: Value): bool {
    if a.Null? || b.Null? || a.Now? || b.Now? then false
    else if IsNumeric(a) && IsNumeric(b) then Numeric(a) < Numeric(b)
    else if IsNumeric(a) then true
    else if IsNumeric(b) then false
    else Below(a.s, b.s)
  }

  lemma SqlLessIrreflexive(a: Value)
    ensures !SqlLess(a, a)
  {
    if a.Str? {
      BelowIrreflexive(a.s);
    }
  }

  // ---------------------------------------------------------------------
  // players

  const PlayersBase: seq<Column> := [
    Column("discord_id", Null), Column("server_id", Null), Column("discord_name", Null),
    Column("display_name", Null), Column("wins", Int(0)), Column("losses", Int(0)),
    Column("total_pugs", Int(0)), Column("elo", Real(1000.0)), Column("ut2k4_player_name", Null),
    Column("ut2k4_last_scraped", Null), Column("created_at", Now)]

  /** The players table the server_id copy-migration creates; its peak_elo
      has no DEFAULT. */
  const PlayersCopy: seq<Column> := [
    Column("discord_id", Null), Column("server_id", Null), Column("discord_name", Null),
    Column("display_name", Null), Column("wins", Int(0)), Column("losses", Int(0)),
    Column("total_pugs", Int(0)), Column("elo", Real(1000.0)), Column("ut2k4_player_name", Null),
    Column("ut2k4_last_scraped", Null), Column("peak_elo", Null), Column("current_streak", Int(0)),
    Column("best_win_streak", Int(0)), Column("best_loss_streak", Int(0)), Column("created_at", Now)]

  /** The columns the copy-migration carries over from an old row. */
  const Carried: set<string> := {
    "discord_id", "discord_name", "display_name", "wins", "losses", "total_pugs", "elo",
    "ut2k4_player_name", "ut2k4_last_scraped", "peak_elo", "current_streak",
    "best_win_streak", "best_loss_streak", "created_at"}

  const Counters: set<string> := {"wins", "losses", "total_pugs", "current_streak", "best_win_streak", "best_loss_streak"}

  /** The value the copy takes for a column the old row does not have: 0
      for the counters, 1000 for the rating, the old rating (or 1000) for
      the peak, NULL for the rest. */
  function Fallback(prev: Row, c: string): Value {
    if c in Counters then Int(0)
    else if c == "elo" then Real(1000.0)
    else if c == "peak_elo" then DictGet(prev, "elo", Real(1000.0))
    else Null
  }

  /** One old players row copied into the new table: server_id 'default',
      every carried column the old row has keeps its value, and a missing
      one takes its fallback. */
  function CopyPlayer(prev: Row): (r: Row)
    ensures r.Keys == Carried + {"server_id"}
    ensures r["server_id"] == Str("default")
    ensures forall c :: c in Carried && c in prev ==> r[c] == prev[c]
    ensures forall c :: c in Carried && c !in prev ==> r[c] == Fallback(prev, c)
  {
    (map c | c in Carried :: DictGet(prev, c, Fallback(prev, c)))["server_id" := Str("default")]
  }

  /** Without a peak column in the old table, the copied peak is the old
      rating, so it is not below it. */
  lemma CopiedPeakIsElo(prev: Row)
    requires "peak_elo" !in prev
    ensures CopyPlayer(prev)["peak_elo"] == CopyPlayer(prev)["elo"]
  {
  }

  function CopyPlayers(rows: seq<Row>): (r: seq<Row>)
    ensures |r| == |rows|
    ensures forall i :: 0 <= i < |rows| ==> r[i] == CopyPlayer(rows[i])
  {
    seq(|rows|, i requires 0 <= i < |rows| => CopyPlayer(rows[i]))
  }

  lemma PlayersCopyColumns(c: string)
    ensures HasColumn(Table(PlayersCopy, []), c) <==> c in Carried + {"server_id"}
  {
    if c in Carried + {"server_id"} {
      var names := ["discord_id", "server_id", "discord_name", "display_name", "wins", "losses",
        "total_pugs", "elo", "ut2k4_player_name", "ut2k4_last_scraped", "peak_elo",
        "current_streak", "best_win_streak", "best_loss_streak", "created_at"];
      assert forall i :: 0 <= i < 15 ==> PlayersCopy[i].name == names[i];
      assert c in names;
    }
  }

  /** The discord_name / display_name step: both are added when the first
      is missing (the second ALTER fails if only it exists). */
  function AddNames(s: Schema): (r: Result<Schema>)
    requires "players" in s
    ensures r.Ok? ==> SameOutside(s, r.value, {"players"}) && "players" in r.value
    ensures r.Ok? ==> forall n, c :: Has(s, n, c) ==> Has(r.value, n, c)
    ensures r.Ok? ==> Has(r.value, "players", "discord_name")
    ensures Has(s, "players", "discord_name") ==> r == Ok(s)
  {
    if Has(s, "players", "discord_name") then Ok(s)
    else
      AddColumnKeepsColumns(s, "players", Column("discord_name", Null));
      var a := AddColumn(s, "players", Column("discord_name", Null)).value;
      if AddColumn(a, "players", Column("display_name", Null)).Ok? then
        AddColumnKeepsColumns(a, "players", Column("display_name", Null));
        AddColumn(a, "players", Column("display_name", Null))
      else
        AddColumn(a, "players", Column("display_name", Null))
  }

  /** The server_id copy-migration: the old table is renamed away (which
      fails if players_old exists), a new one is created and every old row
      is copied into it, and the old table is dropped. */
  function AddServerId(s: Schema): (r: Result<Schema>)
    requires "players" in s
    ensures Has(s, "players", "server_id") ==> r == Ok(s)
    ensures !Has(s, "players", "server_id") ==> (r.Ok? <==> "players_old" !in s)
    ensures !Has(s, "players", "server_id") && r.Ok? ==>
      r.value == s["players" := Table(PlayersCopy, CopyPlayers(s["players"].rows))]
  {
    if Has(s, "players", "server_id") then Ok(s)
    else if "players_old" in s then Fault("there is already another table or index with this name: players_old")
    else Ok(s["players" := Table(PlayersCopy, CopyPlayers(s["players"].rows))])
  }

  /** UPDATE players SET peak_elo = elo WHERE peak_elo IS NULL OR peak_elo < elo */
  function BackfillPeak(r: Row): (n: Row)
    ensures !SqlLess(Get(n, "peak_elo"), Get(n, "elo"))
    ensures Get(n, "peak_elo").Null? ==> Get(n, "elo").Null?
    ensures forall c :: c != "peak_elo" ==> Get(n, c) == Get(r, c)
    ensures n.Keys == r.Keys + {"peak_elo"}
  {
    if Get(r, "peak_elo").Null? || SqlLess(Get(r, "peak_elo"), Get(r, "elo")) then
      SqlLessIrreflexive(Get(r, "elo"));
      r["peak_elo" := Get(r, "elo")]
    else r
  }

  /** A peak that is not below the rating, read as numbers. */
  lemma PeakCoversNumericElo(r: Row)
    requires !SqlLess(Get(r, "peak_elo"), Get(r, "elo"))
    requires IsNumeric(Get(r, "peak_elo")) && IsNumeric(Get(r, "elo"))
    ensures Numeric(Get(r, "peak_elo")) >= Numeric(Get(r, "elo"))
  {
  }

  function MapRows(rows: seq<Row>, f: Row -> Row): (r: seq<Row>)
    ensures |r| == |rows|
    ensures forall i :: 0 <= i < |rows| ==> r[i] == f(rows[i])
  {
    seq(|rows|, i requires 0 <= i < |rows| => f(rows[i]))
  }

  /** The peak_elo step: the column is added with DEFAULT 1000, then raised
      to the rating wherever it is below it. */
  function AddPeak(s: Schema): (r: Result<Schema>)
    requires "players" in s
    ensures r.Ok? ==> SameOutside(s, r.value, {"players"}) && "players" in r.value
    ensures r.Ok? ==> forall n, c :: Has(s, n, c) ==> Has(r.value, n, c)
    ensures r.Ok? ==> Has(r.value, "players", "peak_elo")
    ensures Has(s, "players", "peak_elo") ==> r == Ok(s)
    ensures !Has(s, "players", "peak_elo") ==> (r.Ok? <==> Has(s, "players", "elo"))
    ensures !Has(s, "players", "peak_elo") && r.Ok? ==>
      r.value["players"].columns == s["players"].columns + [Column("peak_elo", Real(1000.0))]
    ensures !Has(s, "players", "peak_elo") && r.Ok? ==>
      r.value["players"].rows == MapRows(WithColumnValue(s["players"].rows, Column("peak_elo", Real(1000.0))), BackfillPeak)
  {
    if Has(s, "players", "peak_elo") then Ok(s)
    else
      AddColumnKeepsColumns(s, "players", Column("peak_elo", Real(1000.0)));
      var a := AddColumn(s, "players", Column("peak_elo", Real(1000.0))).value;
      if !Has(a, "players", "elo") then Fault("no such column: elo")
      else
        var t := a["players"];
        Ok(a["players" := t.(rows := MapRows(t.rows, BackfillPeak))])
  }

  /** UPDATE players SET registered = 1 WHERE total_pugs > 0 */
  function BackfillRegistered(r: Row): (n: Row)
    ensures Get(n, "registered") == if SqlLess(Int(0), Get(r, "total_pugs")) then Int(1) else Get(r, "registered")
    ensures forall c :: c != "registered" ==> Get(n, c) == Get(r, c)
  {
    if SqlLess(Int(0), Get(r, "total_pugs")) then r["registered" := Int(1)] else r
  }

  /** The registered step: the column is added with DEFAULT 0, then set to 1
      on every row with a positive total_pugs. */
  function AddRegistered(s: Schema): (r: Result<Schema>)
    requires "players" in s
    ensures r.Ok? ==> SameOutside(s, r.value, {"players"}) && "players" in r.value
    ensures r.Ok? ==> forall n, c :: Has(s, n, c) ==> Has(r.value, n, c)
    ensures r.Ok? ==> Has(r.value, "players", "registered")
    ensures Has(s, "players", "registered") ==> r == Ok(s)
    ensures !Has(s, "players", "registered") ==> (r.Ok? <==> Has(s, "players", "total_pugs"))
    ensures !Has(s, "players", "registered") && r.Ok? ==>
      r.value["players"].columns == s["players"].columns + [Column("registered", Int(0))]
    ensures !Has(s, "players", "registered") && r.Ok? ==>
      r.value["players"].rows == MapRows(WithColumnValue(s["players"].rows, Column("registered", Int(0))), BackfillRegistered)
  {
    if Has(s, "players", "registered") then Ok(s)
    else
      AddColumnKeepsColumns(s, "players", Column("registered", Int(0)));
      var a := AddColumn(s, "players", Column("registered", Int(0))).value;
      if !Has(a, "players", "total_pugs") then Fault("no such column: total_pugs")
      else
        var t := a["players"];
        Ok(a["players" := t.(rows := MapRows(t.rows, BackfillRegistered))])
  }

  lemma AddServerIdKeepsColumns(s: Schema)
    requires "players" in s && AddServerId(s).Ok?
    ensures SameOutside(s, AddServerId(s).value, {"players"}) && "players" in AddServerId(s).value
    ensures forall n, c :: n != "players" && Has(s, n, c) ==> Has(AddServerId(s).value, n, c)
    ensures Has(AddServerId(s).value, "players", "server_id")
    ensures Has(s, "players", "discord_name") ==> Has(AddServerId(s).value, "players", "discord_name")
  {
    if !Has(s, "players", "server_id") {
      PlayersCopyColumns("server_id");
      PlayersCopyColumns("discord_name");
    }
  }

  /** The first players steps: create the table, add the name columns,
      and run the server_id copy-migration. */
  function PlayersFront(s: Schema): (r: Result<Schema>)
    ensures r.Ok? ==> "players" in r.value
  {
    var s1 :- AddNames(Create(s, "players", PlayersBase));
    AddServerId(s1)
  }

  /** The remaining players steps: the streak, peak and registered
      columns. */
  function PlayersBack(s: Schema): (r: Result<Schema>)
    requires "players" in s
  {
    var s3 := AddIfMissing(s, "players", Column("current_streak", Int(0))).value;
    var s4 :- AddPeak(s3);
    var s5 :- AddRegistered(s4);
    var s6 := AddIfMissing(s5, "players", Column("best_win_streak", Int(0))).value;
    AddIfMissing(s6, "players", Column("best_loss_streak", Int(0)))
  }

  /** Every players step of init_database, in order. */
  function MigratePlayers(s: Schema): (r: Result<Schema>)
  {
    var s2 :- PlayersFront(s);
    PlayersBack(s2)
  }

  /** The players columns every later probe asks for. */
  ghost predicate PlayersDone(s: Schema) {
    && Has(s, "players", "discord_name") && Has(s, "players", "server_id")
    && Has(s, "players", "current_streak") && Has(s, "players", "peak_elo")
    && Has(s, "players", "registered") && Has(s, "players", "best_win_streak")
    && Has(s, "players", "best_loss_streak")
  }

  lemma PlayersFrontSpec(s: Schema)
    ensures PlayersFront(s).Ok? ==> && SameOutside(s, PlayersFront(s).value, {"players"})
                                    && Has(PlayersFront(s).value, "players", "server_id")
                                    && Has(PlayersFront(s).value, "players", "discord_name")
    ensures PlayersDone(s) ==> PlayersFront(s) == Ok(s)
  {
    var s0 := Create(s, "players", PlayersBase);
    if PlayersFront(s).Ok? {
      var s1 := AddNames(s0).value;
      AddServerIdKeepsColumns(s1);
    }
  }

  lemma PlayersBackSpec(s: Schema)
    requires "players" in s
    requires Has(s, "players", "server_id") && Has(s, "players", "discord_name")
    ensures PlayersBack(s).Ok? ==> && SameOutside(s, PlayersBack(s).value, {"players"})
                                   && PlayersDone(PlayersBack(s).value)
    ensures PlayersDone(s) ==> PlayersBack(s) == Ok(s)
  {
    if PlayersBack(s).Ok? {
      var s3 := AddIfMissing(s, "players", Column("current_streak", Int(0))).value;
      var s4 := AddPeak(s3).value;
      var s5 := AddRegistered(s4).value;
      var s6 := AddIfMissing(s5, "players", Column("best_win_streak", Int(0))).value;
      var s7 := AddIfMissing(s6, "players", Column("best_loss_streak", Int(0))).value;
      assert PlayersBack(s).value == s7;
      assert Has(s4, "players", "current_streak") && Has(s4, "players", "peak_elo");
      assert Has(s7, "players", "registered");
    }
  }

  lemma MigratePlayersSpec(s: Schema)
    ensures MigratePlayers(s).Ok? ==> && SameOutside(s, MigratePlayers(s).value, {"players"})
                                      && PlayersDone(MigratePlayers(s).value)
    ensures PlayersDone(s) ==> MigratePlayers(s) == Ok(s)
  {
    PlayersFrontSpec(s);
    if PlayersFront(s).Ok? {
      PlayersBackSpec(PlayersFront(s).value);
    }
  }

  // ---------------------------------------------------------------------
  // pugs, pug_teams, timeouts

  const PugsColumns: seq<Column> := [
    Column("pug_id", Null), Column("game_mode", Null), Column("winner", Null),
    Column("avg_red_elo", Null), Column("avg_blue_elo", Null), Column("status", Str("active")),
    Column("tiebreaker_map", Null), Column("timestamp", Now)]

  const PugTeamsColumns: seq<Column> := [
    Column("id", Null), Column("pug_id", Null), Column("discord_id", Null), Column("team", Null)]

  const TimeoutsColumns: seq<Column> := [Column("discord_id", Null), Column("timeout_end", Null)]

  function MigratePugs(s: Schema): (r: Schema)
    ensures SameOutside(s, r, {"pugs", "pug_teams", "timeouts"})
    ensures Has(r, "pugs", "status") && Has(r, "pugs", "tiebreaker_map")
    ensures "pug_teams" in r && "timeouts" in r
    ensures Has(s, "pugs", "status") && Has(s, "pugs", "tiebreaker_map") && "pug_teams" in s && "timeouts" in s ==> r == s
  {
    var s0 := Create(s, "pugs", PugsColumns);
    var s1 := AddIfMissing(s0, "pugs", Column("status", Str("active"))).value;
    var s2 := AddIfMissing(s1, "pugs", Column("tiebreaker_map", Null)).value;
    var s3 := Create(s2, "pug_teams", PugTeamsColumns);
    Create(s3, "timeouts", TimeoutsColumns)
  }

  // ---------------------------------------------------------------------
  // pug_admins

  const AdminsColumns: seq<Column> := [Column("discord_id", Null), Column("server_id", Null)]

  /** One old admin row re-added with server_id 'default'. */
  function CopyAdmin(prev: Row): (r: Row)
    ensures r.Keys == {"discord_id", "server_id"}
    ensures r["discord_id"] == Get(prev, "discord_id") && r["server_id"] == Str("default")
  {
    map["discord_id" := Get(prev, "discord_id"), "server_id" := Str("default")]
  }

  function CopyAdmins(rows: seq<Row>): (r: seq<Row>)
    ensures |r| == |rows|
    ensures forall i :: 0 <= i < |rows| ==> r[i] == CopyAdmin(rows[i])
  {
    seq(|rows|, i requires 0 <= i < |rows| => CopyAdmin(rows[i]))
  }

  /** The pug_admins steps: create, then the server_id copy-migration, which
      reads discord_id from the old table. */
  function MigrateAdmins(s: Schema): (r: Result<Schema>)
    ensures r.Ok? ==> SameOutside(s, r.value, {"pug_admins"}) && Has(r.value, "pug_admins", "server_id")
    ensures r.Ok? ==> forall n, c :: n != "pug_admins" && Has(s, n, c) ==> Has(r.value, n, c)
    ensures Has(s, "pug_admins", "server_id") ==> r == Ok(s)
    ensures "pug_admins" in s && !Has(s, "pug_admins", "server_id") ==>
      (r.Ok? <==> Has(s, "pug_admins", "discord_id") && "pug_admins_old" !in s)
    ensures "pug_admins" in s && !Has(s, "pug_admins", "server_id") && r.Ok? ==>
      r.value["pug_admins"].rows == CopyAdmins(s["pug_admins"].rows)
  {
    var s0 := Create(s, "pug_admins", AdminsColumns);
    assert AdminsColumns[1].name == "server_id";
    if Has(s0, "pug_admins", "server_id") then Ok(s0)
    else if !Has(s0, "pug_admins", "discord_id") then Fault("no such column: discord_id")
    else if "pug_admins_old" in s0 then Fault("there is already another table or index with this name: pug_admins_old")
    else Ok(s0["pug_admins" := Table(AdminsColumns, CopyAdmins(s0["pug_admins"].rows))])
  }

  // ---------------------------------------------------------------------
  // game modes, ratings, maps and settings

  const GameModesColumns: seq<Column> := [
    Column("mode_name", Null), Column("display_name", Null), Column("team_size", Null),
    Column("description", Null), Column("per_mode_elo_enabled", Int(0)), Column("elo_prefix", Null)]

  const AliasesColumns: seq<Column> := [Column("alias", Null), Column("mode_name", Null)]

  const ModeElosColumns: seq<Column> := [
    Column("discord_id", Null), Column("server_id", Null), Column("mode_name", Null),
    Column("elo", Real(1000.0)), Column("wins", Int(0)), Column("losses", Int(0)),
    Column("peak_elo", Real(1000.0)), Column("current_streak", Int(0)),
    Column("best_win_streak", Int(0)), Column("best_loss_streak", Int(0)),
    Column("last_updated", Now)]

  const MapsColumns: seq<Column> := [
    Column("id", Null), Column("server_id", Null), Column("mode_prefix", Null),
    Column("map_name", Null), Column("added_at", Now)]

  const CooldownsColumns: seq<Column> := [
    Column("id", Null), Column("server_id", Null), Column("mode_prefix", Null),
    Column("map_name", Null), Column("used_at", Now)]

  const SettingsColumns: seq<Column> := [Column("key", Null), Column("value", Null)]

  const ModeTables: set<string> := {"game_modes", "mode_aliases", "player_mode_elos", "maps", "map_cooldowns", "bot_settings"}

  lemma SameOutsideTrans(a: Schema, b: Schema, c: Schema, n1: set<string>, n2: set<string>)
    requires SameOutside(a, b, n1) && SameOutside(b, c, n2)
    ensures SameOutside(a, c, n1 + n2)
  {
  }

  function CreateModeTables(s: Schema): Schema {
    var s3 := Create(s, "mode_aliases", AliasesColumns);
    var s4 := Create(s3, "player_mode_elos", ModeElosColumns);
    var s5 := Create(s4, "maps", MapsColumns);
    var s6 := Create(s5, "map_cooldowns", CooldownsColumns);
    Create(s6, "bot_settings", SettingsColumns)
  }

  const LaterTables: set<string> := {"mode_aliases", "player_mode_elos", "maps", "map_cooldowns", "bot_settings"}

  lemma CreateModeTablesSpec(s: Schema)
    ensures SameOutside(s, CreateModeTables(s), LaterTables)
    ensures forall n :: n in LaterTables ==> n in CreateModeTables(s)
    ensures (forall n :: n in LaterTables ==> n in s) ==> CreateModeTables(s) == s
  {
    var s3 := Create(s, "mode_aliases", AliasesColumns);
    var s4 := Create(s3, "player_mode_elos", ModeElosColumns);
    var s5 := Create(s4, "maps", MapsColumns);
    var s6 := Create(s5, "map_cooldowns", CooldownsColumns);
    var s7 := Create(s6, "bot_settings", SettingsColumns);
    assert SameOutside(s, s7, LaterTables) by {
      SameOutsideTrans(s, s3, s4, {"mode_aliases"}, {"player_mode_elos"});
      SameOutsideTrans(s, s4, s5, {"mode_aliases", "player_mode_elos"}, {"maps"});
      SameOutsideTrans(s, s5, s6, {"mode_aliases", "player_mode_elos", "maps"}, {"map_cooldowns"});
      SameOutsideTrans(s, s6, s7, {"mode_aliases", "player_mode_elos", "maps", "map_cooldowns"}, {"bot_settings"});
      assert {"mode_aliases", "player_mode_elos", "maps", "map_cooldowns"} + {"bot_settings"} == LaterTables;
    }
    assert forall n :: n in LaterTables ==> n in s7 by {
      LaterTableNames();
      assert "mode_aliases" in s3 && s3.Keys <= s7.Keys;
      assert "player_mode_elos" in s4 && s4.Keys <= s7.Keys;
      assert "maps" in s5 && s5.Keys <= s7.Keys;
      assert "map_cooldowns" in s6 && s6.Keys <= s7.Keys;
    }
  }

  lemma LaterTableNames()
    ensures forall n :: n in LaterTables <==>
      n == "mode_aliases" || n == "player_mode_elos" || n == "maps" || n == "map_cooldowns" || n == "bot_settings"
    ensures "mode_aliases" != "player_mode_elos" && "mode_aliases" != "maps" && "mode_aliases" != "map_cooldowns"
    ensures "mode_aliases" != "bot_settings" && "player_mode_elos" != "maps" && "player_mode_elos" != "map_cooldowns"
    ensures "player_mode_elos" != "bot_settings" && "maps" != "map_cooldowns" && "maps" != "bot_settings"
    ensures "map_cooldowns" != "bot_settings"
  {
    assert "mode_aliases"[1] != "maps"[1] && "mode_aliases"[1] != "map_cooldowns"[1];
    assert "maps"[3] != "map_cooldowns"[3];
  }

  /** The game_modes steps, then the remaining CREATE TABLE IF NOT EXISTS. */
  function MigrateModes(s: Schema): Schema {
    var s0 := Create(s, "game_modes", GameModesColumns);
    var s1 := AddIfMissing(s0, "game_modes", Column("elo_prefix", Null)).value;
    var s2 := AddIfMissing(s1, "game_modes", Column("per_mode_elo_enabled", Int(0))).value;
    CreateModeTables(s2)
  }

  lemma MigrateModesSpec(s: Schema)
    ensures SameOutside(s, MigrateModes(s), ModeTables)
    ensures Has(MigrateModes(s), "game_modes", "elo_prefix") && Has(MigrateModes(s), "game_modes", "per_mode_elo_enabled")
    ensures forall n :: n in ModeTables ==> n in MigrateModes(s)
    ensures ((forall n :: n in ModeTables ==> n in s) && Has(s, "game_modes", "elo_prefix")
             && Has(s, "game_modes", "per_mode_elo_enabled")) ==> MigrateModes(s) == s
  {
    var s0 := Create(s, "game_modes", GameModesColumns);
    var s1 := AddIfMissing(s0, "game_modes", Column("elo_prefix", Null)).value;
    var s2 := AddIfMissing(s1, "game_modes", Column("per_mode_elo_enabled", Int(0))).value;
    CreateModeTablesSpec(s2);
    ModeTableNames();
    assert SameOutside(s, MigrateModes(s), ModeTables) by {
      SameOutsideTrans(s, s0, s1, {"game_modes"}, {"game_modes"});
      SameOutsideTrans(s, s1, s2, {"game_modes"}, {"game_modes"});
      SameOutsideTrans(s, s2, MigrateModes(s), {"game_modes"}, LaterTables);
    }
    KeepTable(s2, MigrateModes(s), LaterTables, "game_modes");
  }

  lemma ModeTableNames()
    ensures {"game_modes"} + LaterTables == ModeTables
    ensures "game_modes" !in LaterTables
  {
    LaterTableNames();
    assert "game_modes"[0] == 'g';
  }

  /** A bot_settings row holds `key`. */
  predicate HasSetting(t: Table, key: string) {
    exists i :: 0 <= i < |t.rows| && Get(t.rows[i], "key") == Str(key)
  }

  /** INSERT OR IGNORE INTO bot_settings (key, value): an existing key keeps
      its value; a table without those columns rejects the insert. */
  function SeedSetting(s: Schema, key: string, value: string): (r: Result<Schema>)
    requires "bot_settings" in s
    ensures HasSetting(s["bot_settings"], key) ==> r == Ok(s)
    ensures !HasSetting(s["bot_settings"], key) ==>
      (r.Ok? <==> HasColumn(s["bot_settings"], "key") && HasColumn(s["bot_settings"], "value"))
    ensures r.Ok? ==> && SameOutside(s, r.value, {"bot_settings"}) && "bot_settings" in r.value
                      && r.value["bot_settings"].columns == s["bot_settings"].columns
                      && HasSetting(r.value["bot_settings"], key)
    ensures r.Ok? ==> forall i :: 0 <= i < |s["bot_settings"].rows| ==>
      i < |r.value["bot_settings"].rows| && r.value["bot_settings"].rows[i] == s["bot_settings"].rows[i]
  {
    var t := s["bot_settings"];
    if HasSetting(t, key) then Ok(s)
    else if !HasColumn(t, "key") then Fault("table bot_settings has no column named key")
    else if !HasColumn(t, "value") then Fault("table bot_settings has no column named value")
    else
      var row := NewRow(t.columns, map["key" := Str(key), "value" := Str(value)]);
      assert Get(row, "key") == Str(key) by { NewRowGiven(t.columns, map["key" := Str(key), "value" := Str(value)], "key"); }
      var rows := t.rows + [row];
      assert Get(rows[|t.rows|], "key") == Str(key);
      Ok(s["bot_settings" := t.(rows := rows)])
  }

  lemma {:induction false} NewRowGiven(cols: seq<Column>, given: map<string, Value>, c: string)
    requires c in given && exists i :: 0 <= i < |cols| && cols[i].name == c
    ensures c in NewRow(cols, given) && NewRow(cols, given)[c] == given[c]
    decreases |cols|
  {
    var last := cols[|cols| - 1];
    if last.name != c {
      var i :| 0 <= i < |cols| && cols[i].name == c;
      assert cols[..|cols| - 1][i] == cols[i];
      NewRowGiven(cols[..|cols| - 1], given, c);
    }
  }

  ghost predicate Seeded(s: Schema) {
    && "bot_settings" in s
    && HasSetting(s["bot_settings"], "scraping_enabled")
    && HasSetting(s["bot_settings"], "per_mode_elo_enabled")
    && HasSetting(s["bot_settings"], "pug_counter")
  }

  function SeedSettings(s: Schema): (r: Result<Schema>)
    requires "bot_settings" in s
    ensures r.Ok? ==> SameOutside(s, r.value, {"bot_settings"}) && Seeded(r.value)
    ensures r.Ok? ==> r.value["bot_settings"].columns == s["bot_settings"].columns
    ensures Seeded(s) ==> r == Ok(s)
  {
    var a :- SeedSetting(s, "scraping_enabled", "false");
    var b :- SeedSetting(a, "per_mode_elo_enabled", "false");
    SeedSetting(b, "pug_counter", "0")
  }

  // ---------------------------------------------------------------------
  // the whole run

  /** init_database: every step in the code's order; the first failing
      statement ends the run. */
  function Migrate(s: Schema): Result<Schema> {
    var s1 :- MigratePlayers(s);
    var s2 := MigratePugs(s1);
    var s3 :- MigrateAdmins(s2);
    var s4 := MigrateModes(s3);
    SeedSettings(s4)
  }

  /** What a completed run leaves: every table, every probed column, and the
      three seeded settings. */
  ghost predicate Migrated(s: Schema) {
    && PlayersDone(s)
    && Has(s, "pugs", "status") && Has(s, "pugs", "tiebreaker_map")
    && "pug_teams" in s && "timeouts" in s
    && Has(s, "pug_admins", "server_id")
    && (forall n :: n in ModeTables ==> n in s)
    && Has(s, "game_modes", "elo_prefix") && Has(s, "game_modes", "per_mode_elo_enabled")
    && Seeded(s)
  }

  lemma KeepTable(a: Schema, b: Schema, names: set<string>, n: string)
    requires SameOutside(a, b, names) && n !in names && n in a
    ensures n in b && b[n] == a[n]
  {
  }

  lemma MigrateSteps(s: Schema)
    requires Migrate(s).Ok?
    ensures MigratePlayers(s).Ok?
    ensures MigrateAdmins(MigratePugs(MigratePlayers(s).value)).Ok?
    ensures var s3 := MigrateAdmins(MigratePugs(MigratePlayers(s).value)).value;
      "bot_settings" in MigrateModes(s3) && Migrate(s) == SeedSettings(MigrateModes(s3))
  {
    MigrateModesSpec(MigrateAdmins(MigratePugs(MigratePlayers(s).value)).value);
  }

  /** The facts each phase establishes survive the later phases, which
      touch other tables. */
  lemma PhasesCombine(s1: Schema, s2: Schema, s3: Schema, s4: Schema, t: Schema)
    requires PlayersDone(s1)
    requires SameOutside(s1, s2, {"pugs", "pug_teams", "timeouts"})
    requires Has(s2, "pugs", "status") && Has(s2, "pugs", "tiebreaker_map")
    requires "pug_teams" in s2 && "timeouts" in s2
    requires SameOutside(s2, s3, {"pug_admins"}) && Has(s3, "pug_admins", "server_id")
    requires SameOutside(s3, s4, ModeTables)
    requires Has(s4, "game_modes", "elo_prefix") && Has(s4, "game_modes", "per_mode_elo_enabled")
    requires forall n :: n in ModeTables ==> n in s4
    requires SameOutside(s4, t, {"bot_settings"}) && Seeded(t)
    ensures Migrated(t)
  {
    KeepTable(s1, s2, {"pugs", "pug_teams", "timeouts"}, "players");
    KeepTable(s2, s3, {"pug_admins"}, "players");
    KeepTable(s3, s4, ModeTables, "players");
    KeepTable(s4, t, {"bot_settings"}, "players");
    KeepTable(s2, s3, {"pug_admins"}, "pugs");
    KeepTable(s3, s4, ModeTables, "pugs");
    KeepTable(s4, t, {"bot_settings"}, "pugs");
    KeepTable(s2, s3, {"pug_admins"}, "pug_teams");
    KeepTable(s3, s4, ModeTables, "pug_teams");
    KeepTable(s4, t, {"bot_settings"}, "pug_teams");
    KeepTable(s2, s3, {"pug_admins"}, "timeouts");
    KeepTable(s3, s4, ModeTables, "timeouts");
    KeepTable(s4, t, {"bot_settings"}, "timeouts");
    KeepTable(s3, s4, ModeTables, "pug_admins");
    KeepTable(s4, t, {"bot_settings"}, "pug_admins");
    KeepTable(s4, t, {"bot_settings"}, "game_modes");
    forall n | n in ModeTables ensures n in t {
      if n != "bot_settings" {
        KeepTable(s4, t, {"bot_settings"}, n);
      }
    }
  }

  lemma MigrateReachesMigrated(s: Schema)
    requires Migrate(s).Ok?
    ensures Migrated(Migrate(s).value)
  {
    MigrateSteps(s);
    MigratePlayersSpec(s);
    var s1 := MigratePlayers(s).value;
    var s2 := MigratePugs(s1);
    var s3 := MigrateAdmins(s2).value;
    var s4 := MigrateModes(s3);
    MigrateModesSpec(s3);
    PhasesCombine(s1, s2, s3, s4, SeedSettings(s4).value);
  }

  lemma MigratedIsFixed(s: Schema)
    requires Migrated(s)
    ensures Migrate(s) == Ok(s)
  {
    MigratePlayersSpec(s);
    MigrateModesSpec(s);
  }

  /** The probes make init_database idempotent: a second run on the result
      of a successful one succeeds and changes nothing. */
  lemma MigrateIdempotent(s: Schema)
    requires Migrate(s).Ok?
    ensures Migrate(Migrate(s).value) == Migrate(s)
  {
    MigrateReachesMigrated(s);
    MigratedIsFixed(Migrate(s).value);
  }

  // ---------------------------------------------------------------------
  // what the back-fills and copies guarantee

  /** After the peak_elo step adds the column, every row's peak is the
      larger of 1000 and its rating (the rating when it is text, 1000 when
      it is NULL), so no peak is NULL or below its rating. */
  lemma PeakBackfillCovers(s: Schema)
    requires "players" in s && !Has(s, "players", "peak_elo") && AddPeak(s).Ok?
    ensures var before := s["players"].rows;
      var after := AddPeak(s).value["players"].rows;
      && |after| == |before|
      && forall i :: 0 <= i < |after| ==>
           && Get(after[i], "peak_elo") == (if SqlLess(Real(1000.0), Get(before[i], "elo")) then Get(before[i], "elo") else Real(1000.0))
           && !SqlLess(Get(after[i], "peak_elo"), Get(after[i], "elo"))
           && !Get(after[i], "peak_elo").Null?
           && (forall c :: c != "peak_elo" ==> Get(after[i], c) == Get(before[i], c))
  {
    var before := s["players"].rows;
    var after := AddPeak(s).value["players"].rows;
    forall i | 0 <= i < |after|
      ensures !Get(after[i], "peak_elo").Null?
    {
      var w := before[i]["peak_elo" := Real(1000.0)];
      assert after[i] == BackfillPeak(w);
    }
  }

  /** After the registered step adds the column, a row is registered
      exactly when its total_pugs is above 0 (in SQLite's order, where any
      text is above every number). */
  lemma RegisteredBackfillExact(s: Schema)
    requires "players" in s && !Has(s, "players", "registered") && AddRegistered(s).Ok?
    ensures var before := s["players"].rows;
      var after := AddRegistered(s).value["players"].rows;
      && |after| == |before|
      && forall i :: 0 <= i < |after| ==>
           && (Get(after[i], "registered") == Int(1) <==> SqlLess(Int(0), Get(before[i], "total_pugs")))
           && (Get(after[i], "registered") == Int(0) <==> !SqlLess(Int(0), Get(before[i], "total_pugs")))
           && (forall c :: c != "registered" ==> Get(after[i], c) == Get(before[i], c))
  {
  }

  lemma HasColumnAppend(cols: seq<Column>, col: Column, rows: seq<Row>, rows2: seq<Row>, c: string)
    ensures HasColumn(Table(cols + [col], rows), c) <==> HasColumn(Table(cols, rows2), c) || col.name == c
  {
    var t := Table(cols + [col], rows);
    if HasColumn(t, c) && col.name != c {
      var i :| 0 <= i < |t.columns| && t.columns[i].name == c;
      assert i < |cols| && cols[i].name == c;
    }
    if HasColumn(Table(cols, rows2), c) {
      var i :| 0 <= i < |cols| && cols[i].name == c;
      assert t.columns[i].name == c;
    }
    if col.name == c {
      assert t.columns[|cols|].name == c;
    }
  }

  lemma PlayersBaseColumns(rows: seq<Row>, c: string)
    ensures HasColumn(Table(PlayersBase, rows), c) <==>
      c in {"discord_id", "server_id", "discord_name", "display_name", "wins", "losses",
            "total_pugs", "elo", "ut2k4_player_name", "ut2k4_last_scraped", "created_at"}
  {
    var names := ["discord_id", "server_id", "discord_name", "display_name", "wins", "losses",
      "total_pugs", "elo", "ut2k4_player_name", "ut2k4_last_scraped", "created_at"];
    assert forall i :: 0 <= i < 11 ==> PlayersBase[i].name == names[i];
    if c in names {
      var i :| 0 <= i < 11 && names[i] == c;
      assert PlayersBase[i].name == c;
    }
  }

  const FreshAdded: seq<Column> := [
    Column("current_streak", Int(0)), Column("peak_elo", Real(1000.0)), Column("registered", Int(0)),
    Column("best_win_streak", Int(0)), Column("best_loss_streak", Int(0))]

  /** On a players table holding the base columns and the first `k` added
      ones, none of the later added columns is present yet. */
  lemma FreshLacks(k: nat, c: string)
    requires k < 5
    requires c in {"current_streak", "peak_elo", "registered", "best_win_streak", "best_loss_streak"}
    requires forall j :: 0 <= j < k ==> FreshAdded[j].name != c
    ensures !HasColumn(Table(PlayersBase + FreshAdded[..k], []), c)
    decreases k
  {
    PlayersBaseColumns([], c);
    if k > 0 {
      FreshLacks(k - 1, c);
      assert FreshAdded[..k] == FreshAdded[..k - 1] + [FreshAdded[k - 1]];
      assert PlayersBase + FreshAdded[..k] == (PlayersBase + FreshAdded[..k - 1]) + [FreshAdded[k - 1]];
      HasColumnAppend(PlayersBase + FreshAdded[..k - 1], FreshAdded[k - 1], [], [], c);
    }
  }

  lemma FreshHas(k: nat, c: string)
    requires k <= 5
    requires c in {"elo", "total_pugs", "discord_name", "server_id"}
    ensures HasColumn(Table(PlayersBase + FreshAdded[..k], []), c)
  {
    PlayersBaseColumns([], c);
    var i :| 0 <= i < |PlayersBase| && PlayersBase[i].name == c;
    assert (PlayersBase + FreshAdded[..k])[i].name == c;
  }

  lemma FreshStep(s: Schema, k: nat)
    requires k < 5 && "players" in s && s["players"] == Table(PlayersBase + FreshAdded[..k], [])
    ensures !Has(s, "players", FreshAdded[k].name)
  {
    forall j | 0 <= j < k ensures FreshAdded[j].name != FreshAdded[k].name {
    }
    FreshLacks(k, FreshAdded[k].name);
  }

  lemma FreshTableAfter(k: nat)
    requires k < 5
    ensures PlayersBase + FreshAdded[..k] + [FreshAdded[k]] == PlayersBase + FreshAdded[..k + 1]
  {
    assert FreshAdded[..k + 1] == FreshAdded[..k] + [FreshAdded[k]];
  }

  lemma FreshAddStep(s: Schema, k: nat)
    requires k < 5 && "players" in s && s["players"] == Table(PlayersBase + FreshAdded[..k], [])
    ensures AddIfMissing(s, "players", FreshAdded[k]).value["players"] == Table(PlayersBase + FreshAdded[..k + 1], [])
  {
    FreshStep(s, k);
    FreshTableAfter(k);
  }

  lemma FreshPeakStep(s: Schema)
    requires "players" in s && s["players"] == Table(PlayersBase + FreshAdded[..1], [])
    ensures AddPeak(s).Ok? && AddPeak(s).value["players"] == Table(PlayersBase + FreshAdded[..2], [])
  {
    FreshStep(s, 1);
    FreshHas(1, "elo");
    FreshTableAfter(1);
  }

  lemma FreshRegisteredStep(s: Schema)
    requires "players" in s && s["players"] == Table(PlayersBase + FreshAdded[..2], [])
    ensures AddRegistered(s).Ok? && AddRegistered(s).value["players"] == Table(PlayersBase + FreshAdded[..3], [])
  {
    FreshStep(s, 2);
    FreshHas(2, "total_pugs");
    FreshTableAfter(2);
  }

  /** PlayersBack from the values of its steps: the first three give `s5`,
      the last two are always applied. */
  lemma BackChain(s0: Schema, s5: Schema)
    requires "players" in s0
    requires var s3 := AddIfMissing(s0, "players", FreshAdded[0]).value;
      AddPeak(s3).Ok? && AddRegistered(AddPeak(s3).value) == Ok(s5)
    requires "players" in s5
    ensures var s6 := AddIfMissing(s5, "players", FreshAdded[3]).value;
      PlayersBack(s0) == AddIfMissing(s6, "players", FreshAdded[4])
  {
  }

  /** The streak, peak and registered steps on the freshly created table. */
  lemma FreshBackHead(s0: Schema)
    requires "players" in s0 && s0["players"] == Table(PlayersBase, [])
    ensures var s3 := AddIfMissing(s0, "players", FreshAdded[0]).value;
      && AddPeak(s3).Ok? && AddRegistered(AddPeak(s3).value).Ok?
      && "players" in AddRegistered(AddPeak(s3).value).value
      && AddRegistered(AddPeak(s3).value).value["players"] == Table(PlayersBase + FreshAdded[..3], [])
  {
    assert PlayersBase + FreshAdded[..0] == PlayersBase;
    FreshAddStep(s0, 0);
    var s3 := AddIfMissing(s0, "players", FreshAdded[0]).value;
    FreshPeakStep(s3);
    FreshRegisteredStep(AddPeak(s3).value);
  }

  /** The two best-streak steps that follow them. */
  lemma FreshBackTail(s5: Schema)
    requires "players" in s5 && s5["players"] == Table(PlayersBase + FreshAdded[..3], [])
    ensures var s6 := AddIfMissing(s5, "players", FreshAdded[3]).value;
      AddIfMissing(s6, "players", FreshAdded[4]).value["players"] == Table(PlayersBase + FreshAdded, [])
  {
    FreshAddStep(s5, 3);
    var s6 := AddIfMissing(s5, "players", FreshAdded[3]).value;
    FreshAddStep(s6, 4);
    assert FreshAdded[..5] == FreshAdded;
  }

  /** The later players steps on the freshly created table, one at a time:
      each probe finds its column missing and adds it. */
  lemma FreshBack(s0: Schema)
    requires "players" in s0 && s0["players"] == Table(PlayersBase, [])
    ensures PlayersBack(s0).Ok? && "players" in PlayersBack(s0).value
    ensures PlayersBack(s0).value["players"] == Table(PlayersBase + FreshAdded, [])
  {
    FreshBackHead(s0);
    var s5 := AddRegistered(AddPeak(AddIfMissing(s0, "players", FreshAdded[0]).value).value).value;
    FreshBackTail(s5);
    BackChain(s0, s5);
  }

  /** A store without a players table gets the current table, empty, whose
      peak_elo is added later with DEFAULT 1000. */
  lemma FreshPeakDefault(s: Schema)
    requires "players" !in s
    ensures MigratePlayers(s).Ok? && "players" in MigratePlayers(s).value
    ensures MigratePlayers(s).value["players"].rows == []
    ensures Column("peak_elo", Real(1000.0)) in MigratePlayers(s).value["players"].columns
  {
    var s0 := Create(s, "players", PlayersBase);
    FreshFront(s);
    FreshBack(s0);
    FreshPeakColumn();
  }

  lemma FreshPeakColumn()
    ensures Column("peak_elo", Real(1000.0)) in PlayersBase + FreshAdded
  {
    var cols := PlayersBase + FreshAdded;
    assert |PlayersBase| == 11;
    assert cols[|PlayersBase| + 1] == FreshAdded[1];
  }

  /** On a store without players, the first steps only create the table. */
  lemma FreshFront(s: Schema)
    requires "players" !in s
    ensures PlayersFront(s) == Ok(Create(s, "players", PlayersBase))
  {
    var s0 := Create(s, "players", PlayersBase);
    FreshHas(0, "discord_name");
    FreshHas(0, "server_id");
    assert PlayersBase + FreshAdded[..0] == PlayersBase;
    assert AddNames(s0) == Ok(s0);
  }

  /** The players steps on a table from before server_id that already has
      the name columns: the copy, then the registered step; every other
      probe finds its column in the copy. */
  lemma LegacyPlayersSteps(s: Schema)
    requires "players" in s && !Has(s, "players", "server_id") && Has(s, "players", "discord_name")
    requires "players_old" !in s
    ensures AddServerId(s).Ok? && "players" in AddServerId(s).value
    ensures !Has(AddServerId(s).value, "players", "registered")
    ensures AddRegistered(AddServerId(s).value).Ok?
    ensures MigratePlayers(s) == AddRegistered(AddServerId(s).value)
  {
    assert PlayersFront(s) == AddServerId(s);
    var s2 := AddServerId(s).value;
    CopiedTableProbes(s2["players"]);
    var s5 := AddRegistered(s2).value;
    assert Has(s5, "players", "best_win_streak") && Has(s5, "players", "best_loss_streak");
  }

  /** What the later probes find in the table the copy-migration builds. */
  lemma CopiedTableProbes(t: Table)
    requires t.columns == PlayersCopy
    ensures HasColumn(t, "current_streak") && HasColumn(t, "peak_elo") && HasColumn(t, "total_pugs")
    ensures HasColumn(t, "best_win_streak") && HasColumn(t, "best_loss_streak")
    ensures !HasColumn(t, "registered")
  {
    assert t.columns[11].name == "current_streak" && t.columns[10].name == "peak_elo";
    assert t.columns[6].name == "total_pugs";
    assert t.columns[12].name == "best_win_streak" && t.columns[13].name == "best_loss_streak";
    PlayersCopyColumns("registered");
    CarriedNames();
  }

  /** The same legacy table keeps peak_elo without a DEFAULT, since the
      copied table declares it so and the peak step finds it present. */
  lemma LegacyPeakDefault(s: Schema)
    requires "players" in s && !Has(s, "players", "server_id") && Has(s, "players", "discord_name")
    requires "players_old" !in s
    ensures MigratePlayers(s).Ok? && "players" in MigratePlayers(s).value
    ensures Column("peak_elo", Null) in MigratePlayers(s).value["players"].columns
  {
    LegacyPlayersSteps(s);
    var s2 := AddServerId(s).value;
    assert s2["players"].columns == PlayersCopy;
    var t := AddRegistered(s2).value;
    assert t["players"].columns == PlayersCopy + [Column("registered", Int(0))];
    LegacyPeakColumn();
  }

  lemma LegacyPeakColumn()
    ensures Column("peak_elo", Null) in PlayersCopy + [Column("registered", Int(0))]
  {
    assert (PlayersCopy + [Column("registered", Int(0))])[10] == PlayersCopy[10];
  }

  /** Row for row, the copy keeps every carried value, sets server_id to
      'default', and registers exactly the rows with games. */
  ghost predicate CopiedRows(before: seq<Row>, after: seq<Row>) {
    && |after| == |before|
    && forall i :: 0 <= i < |after| ==>
         && (forall c :: c in Carried && c in before[i] ==> Get(after[i], c) == before[i][c])
         && Get(after[i], "server_id") == Str("default")
         && (Get(after[i], "registered") == Int(1) <==> SqlLess(Int(0), DictGet(before[i], "total_pugs", Int(0))))
  }

  /** One row of CopiedRows: a copied row after the registered back-fill. */
  lemma CopiedRowRegistered(prev: Row, after: Row)
    requires Get(after, "registered") == Int(1) <==> SqlLess(Int(0), Get(CopyPlayer(prev), "total_pugs"))
    requires forall c :: c != "registered" ==> Get(after, c) == Get(CopyPlayer(prev), c)
    ensures forall c :: c in Carried && c in prev ==> Get(after, c) == prev[c]
    ensures Get(after, "server_id") == Str("default")
    ensures Get(after, "registered") == Int(1) <==> SqlLess(Int(0), DictGet(prev, "total_pugs", Int(0)))
  {
    CarriedNames();
    CopiedTotalPugs(prev);
  }

  lemma CopiedTotalPugs(prev: Row)
    ensures Get(CopyPlayer(prev), "total_pugs") == DictGet(prev, "total_pugs", Int(0))
  {
    CarriedNames();
    assert Fallback(prev, "total_pugs") == Int(0);
  }

  lemma CarriedNames()
    ensures "registered" !in Carried && "server_id" !in Carried && "total_pugs" in Carried
    ensures "total_pugs" in Counters
  {
  }

  lemma CopyThenRegister(s2: Schema, before: seq<Row>)
    requires "players" in s2 && s2["players"].rows == CopyPlayers(before)
    requires !Has(s2, "players", "registered") && AddRegistered(s2).Ok?
    ensures CopiedRows(before, AddRegistered(s2).value["players"].rows)
  {
    RegisteredBackfillExact(s2);
    var copied := s2["players"].rows;
    var after := AddRegistered(s2).value["players"].rows;
    forall i | 0 <= i < |after|
      ensures forall c :: c in Carried && c in before[i] ==> Get(after[i], c) == before[i][c]
      ensures Get(after[i], "server_id") == Str("default")
      ensures Get(after[i], "registered") == Int(1) <==> SqlLess(Int(0), DictGet(before[i], "total_pugs", Int(0)))
    {
      assert copied[i] == CopyPlayer(before[i]);
      CopiedRowRegistered(before[i], after[i]);
    }
  }

  /** A players table from before server_id, already holding the name
      columns, comes out of the players steps row for row as CopiedRows
      says. */
  lemma LegacyPlayersKept(s: Schema)
    requires "players" in s && !Has(s, "players", "server_id") && Has(s, "players", "discord_name")
    requires "players_old" !in s
    ensures MigratePlayers(s).Ok? && "players" in MigratePlayers(s).value
    ensures CopiedRows(s["players"].rows, MigratePlayers(s).value["players"].rows)
  {
    LegacyPlayersSteps(s);
    CopyThenRegister(AddServerId(s).value, s["players"].rows);
  }

  // ---------------------------------------------------------------------
  // init_database as the code runs it, row by row

  /** The copy loop of the players migration. */
  method CopyPlayerRows(rows: seq<Row>) returns (out: seq<Row>)
    ensures out == CopyPlayers(rows)
  {
    out := [];
    var i := 0;
    while i < |rows|
      invariant 0 <= i <= |rows|
      invariant out == CopyPlayers(rows[..i])
    {
      CopyPlayersSnoc(rows, i);
      out := out + [CopyPlayer(rows[i])];
      i := i + 1;
    }
    assert rows[..i] == rows;
  }

  lemma CopyPlayersSnoc(rows: seq<Row>, i: int)
    requires 0 <= i < |rows|
    ensures CopyPlayers(rows[..i + 1]) == CopyPlayers(rows[..i]) + [CopyPlayer(rows[i])]
  {
    var a, b := CopyPlayers(rows[..i + 1]), CopyPlayers(rows[..i]) + [CopyPlayer(rows[i])];
    assert |a| == |b|;
    forall k | 0 <= k <= i ensures a[k] == b[k] {
      assert rows[..i + 1][k] == rows[k];
      if k < i {
        assert rows[..i][k] == rows[k];
      }
    }
  }

  /** The copy loop of the pug_admins migration. */
  method CopyAdminRows(rows: seq<Row>) returns (out: seq<Row>)
    ensures out == CopyAdmins(rows)
  {
    out := [];
    var i := 0;
    while i < |rows|
      invariant 0 <= i <= |rows|
      invariant |out| == i
      invariant forall k :: 0 <= k < i ==> out[k] == CopyAdmin(rows[k])
    {
      out := out + [CopyAdmin(rows[i])];
      i := i + 1;
    }
  }

  /** The server_id step with its copy loop. */
  method RunAddServerId(s: Schema) returns (r: Result<Schema>)
    requires "players" in s
    ensures r == AddServerId(s)
  {
    if Has(s, "players", "server_id") {
      r := Ok(s);
    } else if "players_old" in s {
      r := Fault("there is already another table or index with this name: players_old");
    } else {
      var copied := CopyPlayerRows(s["players"].rows);
      r := Ok(s["players" := Table(PlayersCopy, copied)]);
    }
  }

  /** The players statements of init_database. */
  method InitPlayers(s: Schema) returns (r: Result<Schema>)
    ensures r == MigratePlayers(s)
    ensures r.Ok? ==> PlayersDone(r.value) && SameOutside(s, r.value, {"players"})
  {
    MigratePlayersSpec(s);
    var s0 := Create(s, "players", PlayersBase);
    var named := AddNames(s0);
    if named.Fault? {
      return Fault(named.reason);
    }
    var copied := RunAddServerId(named.value);
    if copied.Fault? {
      return Fault(copied.reason);
    }
    AddServerIdKeepsColumns(named.value);
    assert PlayersFront(s) == copied;
    var s3 := AddIfMissing(copied.value, "players", Column("current_streak", Int(0))).value;
    var peaked := AddPeak(s3);
    if peaked.Fault? {
      return Fault(peaked.reason);
    }
    var registered := AddRegistered(peaked.value);
    if registered.Fault? {
      return Fault(registered.reason);
    }
    var s6 := AddIfMissing(registered.value, "players", Column("best_win_streak", Int(0))).value;
    r := AddIfMissing(s6, "players", Column("best_loss_streak", Int(0)));
  }

  /** The pug_admins statements of init_database with their copy loop. */
  method InitAdmins(s: Schema) returns (r: Result<Schema>)
    ensures r == MigrateAdmins(s)
  {
    var s0 := Create(s, "pug_admins", AdminsColumns);
    assert AdminsColumns[1].name == "server_id";
    if Has(s0, "pug_admins", "server_id") {
      r := Ok(s0);
    } else if !Has(s0, "pug_admins", "discord_id") {
      r := Fault("no such column: discord_id");
    } else if "pug_admins_old" in s0 {
      r := Fault("there is already another table or index with this name: pug_admins_old");
    } else {
      var copied := CopyAdminRows(s0["pug_admins"].rows);
      r := Ok(s0["pug_admins" := Table(AdminsColumns, copied)]);
    }
  }

  /** init_database: the phases in order, stopping at the first failure. A
      successful run leaves a store on which a second run changes nothing. */
  method InitDatabase(s: Schema) returns (r: Result<Schema>)
    ensures r == Migrate(s)
    ensures r.Ok? ==> Migrated(r.value) && Migrate(r.value) == r
  {
    var players := InitPlayers(s);
    if players.Fault? {
      return Fault(players.reason);
    }
    var s2 := MigratePugs(players.value);
    var admins := InitAdmins(s2);
    if admins.Fault? {
      return Fault(admins.reason);
    }
    var s4 := MigrateModes(admins.value);
    MigrateModesSpec(admins.value);
    r := SeedSettings(s4);
    if r.Ok? {
      MigrateReachesMigrated(s);
      MigratedIsFixed(r.value);
    }
  }
}
