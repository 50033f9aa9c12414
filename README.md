# PUG-Pro store, modelled in Dafny

PUG-Pro is a Discord bot that runs pick-up games ("pugs"). All of its state
sits in one SQLite file, and the `DatabaseManager` class in `database.py`
reads and writes that file. This project models `DatabaseManager` as an
in-memory store. Each table becomes a field whose type is a Dafny map or
sequence, keyed the way the SQL table is keyed:

- players by (discord_id, server_id);
- per-mode ratings by (discord_id, server_id, mode_name);
- game modes by name, aliases by alias;
- pugs by their AUTOINCREMENT id, with the team rows as a sequence;
- timeouts by discord id;
- admins, map pools and the map cooldown log as sequences of rows;
- bot settings as a map from key to text.

The project proves that model's properties.

How the project is laid out:

- **The component modules** hold the rules, as pure functions with lemmas about them:
  - `Streaks`: the win/loss streak rule.
  - `Peaks`: the peak-rating watermark.
  - `Players`: the player table and the bulk import.
  - `Modes`: game modes, aliases, rating keys and per-mode flags.
  - `ModeRatings`: the per-mode rating track.
  - `Settings`: bot settings and the feature switches.
  - `Pugs`: the pug ledger.
  - `MapPools`: map pools and the cooldown log.
  - `Timeouts` and `Admins`.
- **`Migration`** models the schema migrator of `init_database`. The schema is untyped: tables have ordered columns, each column has a DEFAULT, and rows map column names to values.
- **`Database.DatabaseManager`** is a class with one field per table. Each of its methods may change only the tables its SQL writes. Each method states its new state as the matching component function of the old state, and keeps the class invariant `Valid()`. That invariant says:
  - pugs are numbered 1 up to the counter;
  - team rows name existing pugs;
  - admin pairs and map rows are unique;
  - streaks and per-mode rows are consistent;
  - every stored mode has a valid team size.

How the source's conventions are represented:

- Ratings are `real`.
- In `get_player`, `get_all_players` and `get_pug_admins`, which test `server_id` for truthiness, a missing server id (Python's `None` or an empty string) is the empty string.
- Each SQLite statement's behaviour is written out where it matters:
  - a negative LIMIT means no limit;
  - INSERT OR IGNORE keeps an existing row;
  - INSERT OR REPLACE overwrites it;
  - ALTER TABLE ADD COLUMN gives existing rows the DEFAULT;
  - NULL never compares true;
  - numbers sort before text.
- Behaviour of the code worth noting:
  - `update_pug_winner` sets only `winner` (database.py:813-822); `status` stays 'active'.
  - `remove_game_mode` deletes only the game_modes row (database.py:1001-1018). Its aliases stay, because foreign keys are never switched on.
  - `register_player` inserts a row with rating 1000 and a NULL `peak_elo` (database.py:480-484).
  - `bulk_update_elos` writes only `elo` (database.py:755-766), so `peak_elo >= elo` can be broken.
  - The players table built by the copy-migration declares `peak_elo REAL` with no DEFAULT (database.py:83-101). Rows imported later into such a table therefore start with a NULL peak, while a fresh table gives them 1000. The class takes this default as the constructor parameter `peakEloDefault`.

## Model

| member | source | states |
|---|---|---|
| Streaks.Record | database.py:586-615 | the new current streak is positive exactly after a win and never 0; a win raises only the best win streak, to cover the current one, a loss only the best loss streak; the best values never fall; consistent columns stay consistent |
| Streaks.ReplayKeepsConsistent | database.py:570-618 | any sequence of results keeps the best values non-negative and covering the current run |
| Streaks.ReplayCurrent | database.py:586-615 | from a fresh row, the current streak is the signed length of the run of equal results the history ends with |
| Streaks.ReplayBest | database.py:586-615 | from a fresh row, the best win (loss) streak is exactly the length of the longest block of consecutive wins (losses) in the history |
| Streaks.TrailingRunIsRun | database.py:586-615 | the trailing run counted back from the last result is a block of equal results |
| Streaks.RunAtEndIsTrailing | database.py:586-615 | no block of equal results ending at the last result is longer than the trailing run |
| Peaks.NextPeak | database.py:631-635 | the new peak is at least the new rating and at least the old peak, and is one of the two |
| Peaks.PeakIsHighestSubmitted | database.py:620-640 | starting without a peak, the peak is the highest rating ever set, and is one of them |
| Peaks.PeakNeverDecreases | database.py:620-640 | once set, the peak never falls, whatever ratings follow |
| Players.Register | database.py:460-504 | afterwards the key holds a registered row, which is returned; an existing row only gains registered; a new row has no games, rating 1000, no peak, a fresh streak; other rows are untouched |
| Players.RegisterIdempotent | database.py:466-484 | registering a second time, with any names, leaves the table and the returned row as the first call left them |
| Players.RecordResult | database.py:570-618 | the counter of the outcome and total_pugs rise by one, the streak follows Streaks.Record, nothing else changes |
| Players.RecordResultsTally | database.py:570-618 | after any history, wins and losses count its outcomes, total_pugs its length, the streak is its replay, and the rating and peak are untouched |
| Players.SetElo | database.py:620-640 | the rating becomes the new one; the peak becomes set, not below the rating, and not below the old peak; nothing else changes |
| Players.SetElosPeak | database.py:620-640 | after a sequence of rating updates, the peak is the watermark of the ratings and the rating is the last one |
| Players.BulkImport | database.py:733-776 | every pair counts as exactly one success or one error |
| Players.BulkImportEffect | database.py:746-771 | the errors name exactly the rejected pairs in order; a row of another server or an id with no accepted pair is untouched; otherwise the row holds the rating of the id's last accepted pair, as the old row with only elo changed or as a new imported row |
| Players.BulkImportExampleRun | database.py:733-776 | the example batch leaves exactly the two numeric ids with new imported rows, two successes and the error for "abc" |
| Players.BulkImportExample | database.py:746-776 | the batch ("123", 1050), ("abc", 999), ("456", 1100) gives two successes, one error naming "abc", and both numeric ids stored with their ratings |
| Players.BulkImportCanLeavePeakBelowElo | database.py:757-761 | an import raises the rating without the peak, so a row can end with its rating above its peak |
| Modes.AddGameMode | database.py:980-999 | succeeds exactly when the team size is even and at least 2 and the lower-cased name is new, storing the mode with per-mode rating off and no prefix; a failure changes nothing, and a bad team size is reported as such |
| Modes.RemoveGameMode | database.py:1001-1018 | succeeds exactly when the lower-cased name is not 'default' and exists, and then deletes only that mode; a failure changes nothing |
| Modes.GetGameMode | database.py:1020-1040 | a mode is found exactly when its lower-cased name is stored, and it is that row |
| Modes.AddThenGetGameMode | database.py:980-1040 | a mode added under one spelling is found under any spelling with the same lower case, with the fields it was added with; a removed one is found under none |
| Modes.RemoveMode | database.py:1061-1086 | succeeds exactly when the exact name exists and is not 'default', and then deletes the mode and every alias pointing at it; a failure changes nothing |
| Modes.AliasesWithout | database.py:1078-1081 | exactly the aliases not pointing at the mode remain, with their targets |
| Modes.AddModeAlias | database.py:1088-1119 | succeeds exactly when the target is a mode, the alias is not an alias and not a mode name, adding only that alias; a failure changes nothing |
| Modes.RemoveModeAlias | database.py:1121-1134 | reports success exactly when the alias existed; afterwards it is gone |
| Modes.Resolve | database.py:1147-1157 | a stored alias resolves to its target, any other name to itself |
| Modes.ResolveSound | database.py:1088-1157 | when every alias points at a mode and none is a mode name, an alias resolves to a mode and resolving twice equals resolving once |
| Modes.AddModeAliasKeepsSound | database.py:1088-1119 | alias creation keeps every alias pointing at a mode and never at a mode name |
| Modes.RemoveModeKeepsSound | database.py:1061-1086 | remove_mode keeps the aliases sound |
| Modes.RemoveModeAliasKeepsSound | database.py:1121-1134 | alias removal keeps the aliases sound |
| Modes.RemoveGameModeLeavesDanglingAlias | database.py:1001-1018 | remove_game_mode can leave an alias resolving to a mode that no longer exists |
| Modes.AddGameModeCanShadowAlias | database.py:980-999 | add_game_mode can create a mode named like an alias, which keeps resolving elsewhere |
| Modes.AliasesOf | database.py:1136-1145 | the listed aliases are exactly those pointing at the mode |
| Modes.SetPerModeElo | database.py:1223-1249 | succeeds exactly when the exact mode exists, and then only its flag changes; the mode names never change |
| Modes.SetEloPrefix | database.py:1251-1277 | succeeds exactly when the exact mode exists, and then only its prefix changes, to the lower-cased text or NULL for an empty one |
| Modes.SettingsKeepSound | database.py:1223-1277 | changing a flag or a prefix keeps the aliases sound |
| Modes.PrefixOf | database.py:1279-1295 | a prefix is reported only when it is non-empty and stored on an existing mode; otherwise none |
| Modes.EffectiveKeyWithoutPrefix | database.py:1297-1313 | a mode without a prefix rates under its own name |
| Modes.SharedPrefixSharesKey | database.py:1251-1313 | two modes given the same non-empty prefix both rate under the lower-cased prefix |
| Modes.PerModeEloModes | database.py:1315-1327 | exactly the modes whose flag is on |
| ModeRatings.Initial | database.py:1369-1381 | the inserted row has the starting rating as rating and peak, no games and a fresh streak |
| ModeRatings.Lookup | database.py:1333-1367 | the stored row, or rating 1000, peak 1000, no games and a fresh streak for a missing row; a sound table gives a sound row |
| ModeRatings.Init | database.py:1369-1381 | INSERT OR IGNORE: only a missing key gains the initial row; every stored row is kept; soundness is kept |
| ModeRatings.InitIdempotent | database.py:1369-1381 | initialising twice, with any starting rating, is initialising once |
| ModeRatings.Upsert | database.py:1383-1422 | the new rating, a peak covering it and the old peak, and the counters and streak carried over (zero and fresh on a new row); soundness is kept |
| ModeRatings.SetModeElo | database.py:1383-1422 | only the key's row changes, to the upsert of the old row; soundness is kept |
| ModeRatings.ModePeakIsHighestSet | database.py:1395-1419 | from a missing row, the peak is the watermark of every rating set and the rating is the last one |
| ModeRatings.SetModeElosKeepCounters | database.py:1404-1419 | rating updates on an existing row never change its counters or streak, and never lower its peak |
| ModeRatings.RecordModeResult | database.py:1445-1460 | the outcome's counter rises by one, the streak follows Streaks.Record, and the rating and peak stay; soundness is kept |
| ModeRatings.UpdateModeStats | database.py:1424-1463 | the row is created with rating 1000 when missing, then the result is recorded on it; no other row changes; soundness is kept |
| Settings.InsertOrIgnore | database.py:398-414 | the key is present afterwards; a stored value is kept; a missing key takes the given value |
| Settings.Seed | database.py:398-414 | the three defaults are present, values already stored win, and no other key changes |
| Settings.SeedIdempotent | database.py:398-414 | seeding twice is seeding once |
| Settings.SeededSwitchesOff | database.py:398-408 | a freshly seeded store has scraping and the global per-mode switch off |
| Settings.Get | database.py:1160-1169 | a value exactly for a stored key, that key's value |
| Settings.Set | database.py:1171-1182 | the key reads back as the new value; every other key reads as before |
| Settings.Switch | database.py:1184-1187 | a switch is on exactly when its stored value is the text 'true' |
| Settings.SwitchRoundTrip | database.py:1189-1191 | setting a switch and reading it back gives the value set |
| Settings.PerModeEloEnabled | database.py:1194-1221 | with a mode name, that mode's own flag (off for a missing mode); without one, the global switch |
| Settings.PerModeFlagRoundTrip | database.py:1194-1249 | a flag set on a named mode reads back as set |
| Pugs.NewPug | database.py:779-811 | the new pug is active, has no winner, and carries the given mode, averages and tiebreaker map |
| Pugs.WithWinner | database.py:813-822 | only the winner changes, to the given one |
| Pugs.Kill | database.py:824-833 | only the status changes, to killed |
| Pugs.RowsFor | database.py:794-805 | one team row per member, in roster order, labelled with the pug and the side |
| Pugs.MembersAfterAdd | database.py:794-805 | any roster read after the inserts is the old roster plus the new members of that pug and side |
| Pugs.RostersReadBack | database.py:794-805 | the rows add_pug appends read back as exactly the red and blue rosters given, and every other pug keeps its rosters |
| Pugs.IdsBetweenSpec | database.py:840-848 | the listing holds exactly the pugs in range, each once, highest id first |
| Pugs.Take | database.py:840-848 | LIMIT: the first `limit` elements, or all of them for a negative or large limit |
| Pugs.RecentIdsSpec | database.py:835-879 | at most `limit` ids (all for a negative limit), strictly descending, all of pugs; a pug newer than a listed one is listed; a short listing lists every pug |
| Pugs.RecentPugsComplete | database.py:835-879 | no pug is skipped: a pug newer than a listed one is listed, and a short listing lists every pug |
| Pugs.RecentPugsSpec | database.py:835-879 | each view carries its pug's row and red and blue rosters; at most `limit` views, newest first, none skipped |
| MapPools.AddMap | database.py:1510-1528 | succeeds exactly when the row with the lower-cased prefix is new, appending it; a duplicate is reported with the prefix as given, changing nothing; the rows stay unique |
| MapPools.RemoveMap | database.py:1530-1547 | succeeds exactly when the row existed; afterwards the other rows remain and it is gone; the rows stay unique |
| MapPools.AddThenRemoveMap | database.py:1510-1547 | adding a map and then removing it leaves the same set of rows |
| MapPools.Without | database.py:1535-1538 | the DELETE keeps exactly the other rows, and unique rows stay unique |
| MapPools.PoolNames | database.py:1549-1563 | a name is in the pool exactly when the server has a row for it under that prefix |
| MapPools.MapsForMode | database.py:1549-1563 | the pool's names, in ascending order, exactly those of rows under the lower-cased prefix |
| MapPools.AllMapsGrouped | database.py:1565-1585 | exactly the server's prefixes, each with its names in ascending order |
| MapPools.AddCooldown | database.py:1587-1598 | the use is appended to the log with the lower-cased prefix |
| MapPools.RecentAfterAdd | database.py:1587-1615 | a use just logged is the one name on cooldown for a count of 1 |
| MapPools.Recent | database.py:1600-1615 | exactly min(`n`, pool size) names (the whole pool for a negative `n`); the i-th is the pool's i-th newest use, so newest first |
| MapPools.RecentFromLog | database.py:1600-1615 | at most `n` names (any number for a negative `n`), each a logged use of the pool |
| MapPools.RecentExample | database.py:1600-1615 | after uses A, B, C, D of a pool, the three on cooldown are D, C, B |
| MapPools.Pruned | database.py:1617-1634 | pruning never lengthens the log |
| MapPools.PoolMembers | database.py:1600-1634 | a name is in a pool's log exactly when a use of it under that server and prefix was logged |
| MapPools.PrunedPool | database.py:1617-1634 | after pruning, the pool is its newest `keep` uses in their order (all of them for a negative `keep`) |
| MapPools.PrunedKeepsOtherPools | database.py:1617-1634 | pruning one pool leaves every other pool's uses exactly as they were |
| MapPools.RecentSurvivesPruning | database.py:1600-1634 | for any count up to `keep`, the cooldown listing is the same before and after pruning |
| Timeouts.AddTimeout | database.py:893-904 | the player's end becomes the given one; every other entry stays |
| Timeouts.IsTimedOut | database.py:906-927 | timed out exactly when an end is stored and still ahead, reporting that end; otherwise the entry is deleted and none is reported |
| Timeouts.TimeoutHoldsUntilEnd | database.py:893-927 | a timeout just added holds exactly before its end |
| Timeouts.ExpiredTimeoutIsGone | database.py:906-927 | a timeout found over is never reported again, and other players' entries are untouched |
| Admins.Add | database.py:930-939 | the pair is present afterwards; an existing pair changes nothing; the pairs stay unique |
| Admins.Remove | database.py:941-950 | exactly the other pairs remain; the pairs stay unique |
| Admins.AdminsOf | database.py:964-977 | the admins of that server, or of every server for an empty server id |
| Admins.AddRemoveSpec | database.py:930-962 | adding twice is adding once, an added admin is one and a removed one is not, and every other pair keeps its standing |
| Migration.NewRow | database.py:113-133 | an inserted row holds a value for every column of its table |
| Migration.Create | database.py:34-48 | CREATE TABLE IF NOT EXISTS: the table exists afterwards, an existing one is kept, a new one is empty with the given columns, and no other table or column is lost |
| Migration.WithColumnValue | database.py:149 | every existing row takes the new column's DEFAULT |
| Migration.AddColumn | database.py:55-56 | ALTER TABLE ADD COLUMN succeeds exactly on an existing table without that column and changes only that table; otherwise it names the table or the duplicate column |
| Migration.AddColumnKeepsColumns | database.py:149 | adding a column loses no column and adds the new one |
| Migration.AddIfMissing | database.py:145-150 | a probe-guarded step never fails on an existing table, leaves the column present, and changes nothing when it already was |
| Migration.SqlLessIrreflexive | database.py:160 | no value is less than itself under SQLite's comparison |
| Migration.CopyPlayer | database.py:108-133 | a copied row gets server_id 'default'; every carried column the old row has keeps its value; a missing one takes its fallback |
| Migration.CopiedPeakIsElo | database.py:124 | without an old peak column, the copied peak is the old rating |
| Migration.CopyPlayers | database.py:108-134 | one copied row per old row, in order |
| Migration.PlayersCopyColumns | database.py:83-101 | the new table's columns are exactly the carried ones and server_id |
| Migration.AddNames | database.py:50-58 | the name columns are present afterwards; already present, nothing changes |
| Migration.AddServerId | database.py:60-139 | already migrated, nothing changes; otherwise the copy succeeds exactly when no players_old table is left over, building the new table from the copied rows |
| Migration.BackfillPeak | database.py:160 | after the UPDATE a row's peak is not below its rating and is NULL only with a NULL rating; nothing else changes |
| Migration.PeakCoversNumericElo | database.py:160 | a numeric peak the back-fill has passed is at least the numeric rating |
| Migration.AddPeak | database.py:153-161 | the peak column is present afterwards; already present, nothing changes; otherwise it is added with DEFAULT 1000 and back-filled on every row |
| Migration.BackfillRegistered | database.py:183 | a row with total_pugs above 0 becomes registered; nothing else changes |
| Migration.AddRegistered | database.py:176-184 | the registered column is present afterwards; already present, nothing changes; otherwise it is added with DEFAULT 0 and back-filled |
| Migration.AddServerIdKeepsColumns | database.py:60-139 | the copy-migration keeps the other tables and gives players a server_id column |
| Migration.PlayersFront | database.py:31-139 | a successful run of the first players steps leaves a players table |
| Migration.PlayersFrontSpec | database.py:31-139 | the first players steps touch only players and leave a migrated table alone |
| Migration.PlayersBackSpec | database.py:144-202 | the later players steps touch only players, add every probed column, and leave a migrated table alone |
| Migration.MigratePlayersSpec | database.py:31-202 | the players steps touch only players, add every probed column, and change nothing on a migrated table |
| Migration.MigratePugs | database.py:205-255 | pugs gains status and tiebreaker_map, and pug_teams and timeouts exist; only those tables change, and a migrated store is unchanged |
| Migration.CopyAdmin | database.py:291-297 | a copied admin keeps the id and gets server_id 'default' |
| Migration.CopyAdmins | database.py:291-297 | one copied admin per old row, in order |
| Migration.MigrateAdmins | database.py:257-305 | pug_admins gains server_id by copying every old admin with server 'default'; only that table changes; a migrated one is unchanged |
| Migration.CreateModeTablesSpec | database.py:335-392 | the later tables exist afterwards; nothing else changes; existing tables are unchanged |
| Migration.MigrateModesSpec | database.py:307-392 | game_modes gains elo_prefix and per_mode_elo_enabled and every mode table exists; only those change; a migrated store is unchanged |
| Migration.SeedSetting | database.py:398-414 | INSERT OR IGNORE: a stored key keeps the table; a new one is appended, keeping the columns and every earlier row |
| Migration.SeedSettings | database.py:398-414 | the three settings are present afterwards; only bot_settings changes; a seeded table is unchanged |
| Migration.MigrateSteps | database.py:27-417 | a successful run succeeds at every phase |
| Migration.PhasesCombine | database.py:27-417 | what each phase establishes survives the later phases |
| Migration.MigrateReachesMigrated | database.py:27-417 | a successful run leaves every table, every probed column and every seeded setting |
| Migration.MigratedIsFixed | database.py:27-417 | on a migrated store every probe finds its column, so a run changes nothing |
| Migration.MigrateIdempotent | database.py:27-417 | running init_database on its own result gives the same result |
| Migration.PeakBackfillCovers | database.py:153-161 | after the peak step, every row's peak is the larger of 1000 and its rating, is never below the rating nor NULL, and every other column is as before |
| Migration.RegisteredBackfillExact | database.py:176-184 | after the registered step, a row is registered exactly when its total_pugs is above 0, and 0 otherwise; every other column is as before |
| Migration.FreshBack | database.py:144-202 | on a freshly created players table the later steps add exactly the five columns, in order |
| Migration.FreshPeakDefault | database.py:31-202 | a store without players gets an empty players table whose peak_elo has DEFAULT 1000 |
| Migration.LegacyPlayersSteps | database.py:60-202 | on a table from before server_id that has the name columns, only the copy and the registered step do anything |
| Migration.LegacyPeakDefault | database.py:83-101 | that same table ends with a peak_elo column with no DEFAULT |
| Migration.CopyThenRegister | database.py:108-184 | after the copy and the registered step, row for row, carried values are kept, server_id is 'default', and registered is 1 exactly when the old total_pugs was above 0 |
| Migration.LegacyPlayersKept | database.py:60-202 | the players migration of such a table keeps every old row with its values, server_id 'default', and registered exactly on rows that had played |
| Migration.CopyPlayerRows | database.py:108-134 | the copy loop produces exactly the copied rows |
| Migration.CopyAdminRows | database.py:291-297 | the admin copy loop produces exactly the copied admins |
| Migration.RunAddServerId | database.py:60-139 | the server_id step with its loop computes the copy-migration |
| Migration.InitPlayers | database.py:31-202 | the players steps computed with loops reach every probed column and touch only players |
| Migration.InitAdmins | database.py:257-305 | the pug_admins steps computed with the copy loop |
| Migration.InitDatabase | database.py:27-417 | the whole run; a successful one leaves a migrated store on which a second run changes nothing |
| Database.Messages | database.py:750-774 | one message per rejected pair, in order, worded as the source words it |
| Database.NewRowsNumbered | database.py:794-805 | after add_pug every team row names a pug up to the new id, and no earlier row names it |
| Database.RostersAfterAdd | database.py:794-805 | after add_pug the new pug's rosters are the given ones and every other pug's are unchanged |
| Database.DatabaseManager.constructor | database.py:27-417 | a new store: every table empty, the default settings seeded, and the invariant holding |
| Database.DatabaseManager.GetPlayer | database.py:420-458 | an empty server id is an error with the source's message; otherwise the row is reported exactly when it exists |
| Database.DatabaseManager.RegisterPlayer | database.py:460-504 | fails like get_player without a server id, changing nothing; otherwise the table and result are Players.Register's, and the row reads back registered |
| Database.DatabaseManager.PlayerExists | database.py:506-516 | true exactly when the key has a row, which is what get_player finds |
| Database.DatabaseManager.UpdatePlayerNames | database.py:518-530 | an existing row gets both names; a missing row is not created |
| Database.DatabaseManager.FindPlayerByName | database.py:532-548 | some row of the server matching either name ignoring case, or none exactly when no row matches |
| Database.DatabaseManager.DeletePlayer | database.py:550-568 | reports whether the row existed; it is gone afterwards and every other row is kept |
| Database.DatabaseManager.UpdatePlayerStats | database.py:570-618 | an existing row records the result as Players.RecordResult; a missing one is not created |
| Database.DatabaseManager.UpdatePlayerElo | database.py:620-640 | an existing row gets the rating and peak of Players.SetElo; a missing one is not created |
| Database.DatabaseManager.UpdateUt2k4Info | database.py:642-654 | an existing row gets the external name and the given instant |
| Database.DatabaseManager.UpdatePlayerTotalPugs | database.py:656-683 | true exactly when a row was updated, with only its total_pugs set |
| Database.DatabaseManager.GetAllPlayers | database.py:685-731 | exactly the rows of the server (of all servers for an empty id), unchanged |
| Database.DatabaseManager.BulkUpdateElos | database.py:733-776 | the loop leaves the table, counts and messages of Players.BulkImport, with successes plus errors equal to the pairs |
| Database.DatabaseManager.InsertTeam | database.py:794-805 | the insert loop appends one row per member, in roster order |
| Database.DatabaseManager.AddPug | database.py:779-811 | the id is one above the counter and every earlier id; the new pug is active without a winner; its team rows read back as the given rosters; other pugs keep theirs |
| Database.DatabaseManager.UpdatePugWinner | database.py:813-822 | only the winner of an existing pug changes |
| Database.DatabaseManager.DeletePug | database.py:824-833 | only the status of an existing pug changes, to killed; team rows stay |
| Database.DatabaseManager.GetRecentPugs | database.py:835-879 | the loop builds exactly Pugs.RecentPugs: each view carries its pug and rosters; at most `limit` pugs, newest first; a short listing holds every pug |
| Database.DatabaseManager.GetLastPugId | database.py:881-890 | none exactly on an empty table; otherwise the largest pug id |
| Database.DatabaseManager.AddTimeout | database.py:893-904 | the table becomes Timeouts.AddTimeout's |
| Database.DatabaseManager.IsTimedOut | database.py:906-927 | reports and leaves what Timeouts.IsTimedOut does: timed out exactly while the stored end is ahead |
| Database.DatabaseManager.AddPugAdmin | database.py:930-939 | the pairs become Admins.Add's, and the pair is an admin afterwards |
| Database.DatabaseManager.RemovePugAdmin | database.py:941-950 | the pairs become Admins.Remove's, and the pair is no admin afterwards |
| Database.DatabaseManager.IsPugAdmin | database.py:952-962 | true exactly for a stored pair |
| Database.DatabaseManager.GetPugAdmins | database.py:964-977 | exactly the admins of the server, or of any server for an empty id |
| Database.DatabaseManager.AddGameMode | database.py:980-999 | the modes become Modes.AddGameMode's; a success is found by get_game_mode with its fields |
| Database.DatabaseManager.RemoveGameMode | database.py:1001-1018 | the modes become Modes.RemoveGameMode's; a success is no longer found |
| Database.DatabaseManager.GetGameMode | database.py:1020-1040 | found exactly under the lower-cased name |
| Database.DatabaseManager.GetAllGameModes | database.py:1042-1059 | every mode once with its row, largest team size first |
| Database.DatabaseManager.RemoveMode | database.py:1061-1086 | modes and aliases become Modes.RemoveMode's |
| Database.DatabaseManager.AddModeAlias | database.py:1088-1119 | aliases become Modes.AddModeAlias's; a new alias resolves to its mode |
| Database.DatabaseManager.RemoveModeAlias | database.py:1121-1134 | aliases become Modes.RemoveModeAlias's; the name then resolves to itself |
| Database.DatabaseManager.GetModeAliases | database.py:1136-1145 | exactly the aliases of the mode |
| Database.DatabaseManager.ResolveModeAlias | database.py:1147-1157 | an alias's target, or the name itself |
| Database.DatabaseManager.GetSetting | database.py:1160-1169 | a value exactly for a stored key |
| Database.DatabaseManager.SetSetting | database.py:1171-1182 | the key reads back as the new value |
| Database.DatabaseManager.IsScrapingEnabled | database.py:1184-1187 | on exactly when the setting is 'true' |
| Database.DatabaseManager.SetScrapingEnabled | database.py:1189-1191 | the switch reads back as set |
| Database.DatabaseManager.IsPerModeEloEnabled | database.py:1194-1221 | a named mode's flag, or the global switch without a name |
| Database.DatabaseManager.SetPerModeEloForMode | database.py:1223-1249 | modes become Modes.SetPerModeElo's; a success reads back as set |
| Database.DatabaseManager.SetModeEloPrefix | database.py:1251-1277 | modes become Modes.SetEloPrefix's; a non-empty prefix becomes the lower-cased rating key |
| Database.DatabaseManager.GetModeEloPrefix | database.py:1279-1295 | a non-empty stored prefix of an existing mode, or none |
| Database.DatabaseManager.GetEffectiveModeForElo | database.py:1297-1313 | the prefix when there is one, else the mode name |
| Database.DatabaseManager.GetModesWithPerModeElo | database.py:1315-1327 | exactly the modes whose flag is on |
| Database.DatabaseManager.SetPerModeEloEnabled | database.py:1329-1331 | the global switch reads back as set |
| Database.DatabaseManager.GetPlayerModeElo | database.py:1333-1367 | the stored row or the defaults; always a sound row |
| Database.DatabaseManager.InitPlayerModeElo | database.py:1369-1381 | the ratings become ModeRatings.Init's |
| Database.DatabaseManager.UpdatePlayerModeElo | database.py:1383-1422 | computing the peak step by step gives ModeRatings.SetModeElo's table |
| Database.DatabaseManager.UpdatePlayerModeStats | database.py:1424-1463 | the initialisation then the local counter updates give ModeRatings.UpdateModeStats's table |
| Database.DatabaseManager.SetPlayerModeElo | database.py:1465-1480 | succeeds exactly when the mode is stored, then as update_player_mode_elo; otherwise the source's message and no change |
| Database.DatabaseManager.GetAllPlayerModeElos | database.py:1482-1506 | each of the player's per-mode rows on the server once, keyed by mode, highest rating first |
| Database.DatabaseManager.AddMap | database.py:1510-1528 | rows become MapPools.AddMap's; the map is in its pool afterwards |
| Database.DatabaseManager.RemoveMap | database.py:1530-1547 | rows become MapPools.RemoveMap's; the map is not in its pool afterwards |
| Database.DatabaseManager.GetMapsForMode | database.py:1549-1563 | the pool's names, ascending |
| Database.DatabaseManager.GetAllMapsGrouped | database.py:1565-1585 | each prefix of the server with its names, ascending |
| Database.DatabaseManager.AddMapToCooldown | database.py:1587-1598 | the use is logged and is the newest on cooldown |
| Database.DatabaseManager.GetMapsOnCooldown | database.py:1600-1615 | exactly min(`count`, pool size) names (the whole pool for a negative count), the i-th being the pool's i-th newest use, newest first; each a logged use of the pool |
| Database.DatabaseManager.ClearOldCooldowns | database.py:1617-1634 | the log becomes MapPools.Pruned's; the cooldown listing for up to `keep` names is unchanged |

## Left out

- SQL, connections, cursors, commit/close and `print` logging: the tables are values, and each method is one atomic step.
- Timestamps (`CURRENT_TIMESTAMP`, `created_at`, `last_updated`, `used_at`, `datetime.now()`): cooldown recency is the position in the log, and timeout instants are integers passed in by the caller.
- `update_ut2k4_info` takes the instant as a parameter. The scraper that calls it (`scraper.py`) is network I/O and is not part of this model.
- Floating point: ratings are `real`. `float()` of a bulk-import rating is an input that either parses or does not. Players.ErrorMessage always quotes the rejected text with `'`; Python's `repr` switches to `"` for text containing `'`, and a non-string value such as `None` gives a TypeError message instead, neither of which is modelled.
- Unicode: lower-casing and `isdigit` follow ASCII rules.
- Concurrency, and any failure of SQLite itself (locks, disk errors, corrupt files).
- Database.DatabaseManager.UpdatePlayerTotalPugs: the `except` branch returning False on an SQLite error is not modelled. Only the missing-row return is.
- Database.DatabaseManager.FindPlayerByName: the source's `LIMIT 1` without `ORDER BY` picks an unspecified row, so the method promises only "some matching row".
- Database.DatabaseManager.GetGameMode: it returns the whole mode row. The source returns only three of its fields.
- `init_database`: the model does not capture the effects a failed run leaves partially committed. A failed run is a `Fault`, and the store before it is not modelled.
- `None` as a server id is not modelled outside `get_player`, `get_all_players` and `get_pug_admins`. The methods that bind `str(server_id)` would match a server named "None". The map and per-mode methods bind it raw, so it becomes SQL NULL, which matches no row or violates a NOT NULL column.
- Migration.AddServerId: a legacy players table holding the same discord_id twice makes the source's copy INSERT fail on `PRIMARY KEY (discord_id, server_id)`, since every copied row gets server_id 'default' (database.py:83-133). The model does not require distinct ids and lets this copy succeed.
- Migration.MigrateAdmins (and Migration.InitAdmins, which equals it): a legacy pug_admins table holding the same discord_id twice makes the source's re-add INSERT fail on `PRIMARY KEY (discord_id, server_id)`, since every copied admin gets server_id 'default' (database.py:283-297). The model does not require distinct ids and lets this copy succeed with duplicate pairs.
- SQLite type affinity is not modelled. Values keep the form they were given.
- The streak columns of players can be NULL in old stores; this is not modelled. Streaks are integers from the start.
- Cascading deletes through foreign keys: they never fire, since foreign keys are never switched on. Only explicit deletes are modelled.
- The commented-out peak reset block in `init_database` does nothing and is not modelled.
- The ORDER BY ties of `get_recent_pugs` and of the cooldown log: ids are unique, and the log order is the insertion order.
- Database.DatabaseManager.GetAllGameModes: ties between modes with equal team sizes are left in any order. The SQL leaves that order unspecified too. It returns the whole mode row; the source returns only the display name, team_size and description.
- Database.DatabaseManager.GetAllPlayerModeElos: rows with equal ratings are left in any order. The source returns only rating, wins, losses and peak; the model returns the whole row.
