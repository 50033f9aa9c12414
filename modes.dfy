/** The mode registry: game_modes keyed by mode_name, mode_aliases keyed by
    alias, and the rating-pool key a mode's matches update. */
module Modes {
  import opened Wrappers
  import opened Text

  /** One game_modes row: display_name, team_size (the total number of
      players), description, per_mode_elo_enabled, elo_prefix. */
  datatype GameMode = GameMode(
    displayName: string,
    teamSize: int,
    description: string,
    perModeElo: bool,
    eloPrefix: Option<string>)

  type ModeTable = map<string, GameMode>
  type AliasTable = map<string, string>

  predicate ValidTeamSize(n: int) {
    n >= 2 && n % 2 == 0
  }

  /** Every stored mode has a team size its creation accepted. */
  ghost predicate TeamSizesValid(modes: ModeTable) {
    forall m :: m in modes ==> ValidTeamSize(modes[m].teamSize)
  }

  /** add_game_mode: the team size must be even and at least 2, and the
      lower-cased name must be new; the mode is stored under that name with
      per-mode rating off and no prefix. A failure changes nothing. */
  function AddGameMode(modes: ModeTable, name: string, displayName: string, teamSize: int, description: string)
    : (r: (Status, ModeTable))
    ensures r.0 == Done <==> ValidTeamSize(teamSize) && Lower(name) !in modes
    ensures !ValidTeamSize(teamSize) ==> r.0 == Failed("Team size must be an even number of at least 2!")
    ensures r.0 != Done ==> r.1 == modes
    ensures r.0 == Done ==> r.1 == modes[Lower(name) := GameMode(displayName, teamSize, description, false, None)]
    ensures TeamSizesValid(modes) ==> TeamSizesValid(r.1)
  {
    if teamSize < 2 || teamSize % 2 != 0 then
      (Failed("Team size must be an even number of at least 2!"), modes)
    else if Lower(name) in modes then
      (Failed("Game mode already exists!"), modes)
    else
      (Done, modes[Lower(name) := GameMode(displayName, teamSize, description, false, None)])
  }

  /** remove_game_mode: refuses the reserved name 'default' (in any case),
      reports a missing mode, and otherwise deletes the lower-cased name.
      Aliases are not touched. */
  function RemoveGameMode(modes: ModeTable, name: string): (r: (Status, ModeTable))
    ensures r.0 == Done <==> Lower(name) != "default" && Lower(name) in modes
    ensures r.0 != Done ==> r.1 == modes
    ensures r.0 == Done ==> r.1 == modes - {Lower(name)}
  {
    if Lower(name) == "default" then (Failed("Cannot remove the default game mode!"), modes)
    else if Lower(name) !in modes then (Failed("Game mode does not exist!"), modes)
    else (Done, modes - {Lower(name)})
  }

  /** get_game_mode: looks the lower-cased name up. */
  function GetGameMode(modes: ModeTable, name: string): (r: Option<GameMode>)
    ensures r.Some? <==> Lower(name) in modes
    ensures r.Some? ==> r.value == modes[Lower(name)]
  {
    if Lower(name) in modes then Some(modes[Lower(name)]) else None
  }

  /** A mode added under any spelling of its name is found under any other
      spelling of it, with the fields it was added with; once removed, it
      is found under none. */
  lemma AddThenGetGameMode(modes: ModeTable, name: string, other: string, displayName: string, teamSize: int, description: string)
    requires Lower(other) == Lower(name)
    ensures var r := AddGameMode(modes, name, displayName, teamSize, description);
      r.0 == Done ==> GetGameMode(r.1, other) == Some(GameMode(displayName, teamSize, description, false, None))
    ensures var r := RemoveGameMode(modes, name);
      r.0 == Done ==> GetGameMode(r.1, other).None?
  {
  }

  /** The aliases that do not point at `mode`. */
  function AliasesWithout(aliases: AliasTable, mode: string): (r: AliasTable)
    ensures forall a :: a in r <==> a in aliases && aliases[a] != mode
    ensures forall a :: a in r ==> r[a] == aliases[a]
  {
    map a | a in aliases && aliases[a] != mode :: aliases[a]
  }

  /** remove_mode: the exact name must exist and not be 'default'; the mode
      and every alias pointing at it are deleted. */
  function RemoveMode(modes: ModeTable, aliases: AliasTable, name: string): (r: (Status, ModeTable, AliasTable))
    ensures r.0 == Done <==> name in modes && name != "default"
    ensures r.0 != Done ==> r.1 == modes && r.2 == aliases
    ensures r.0 == Done ==> r.1 == modes - {name} && r.2 == AliasesWithout(aliases, name)
  {
    if name !in modes then (Failed("Mode '" + name + "' does not exist!"), modes, aliases)
    else if name == "default" then (Failed("Cannot remove the default mode!"), modes, aliases)
    else (Done, modes - {name}, AliasesWithout(aliases, name))
  }

  /** add_mode_alias: the target must be a mode, the alias must not be an
      alias already, and it must not be a mode name; checked in that order. */
  function AddModeAlias(modes: ModeTable, aliases: AliasTable, alias: string, mode: string): (r: (Status, AliasTable))
    ensures r.0 == Done <==> mode in modes && alias !in aliases && alias !in modes
    ensures r.0 != Done ==> r.1 == aliases
    ensures r.0 == Done ==> r.1 == aliases[alias := mode]
  {
    if mode !in modes then (Failed("Mode '" + mode + "' does not exist!"), aliases)
    else if alias in aliases then (Failed("Alias '" + alias + "' already exists!"), aliases)
    else if alias in modes then (Failed("'" + alias + "' is already a mode name!"), aliases)
    else (Done, aliases[alias := mode])
  }

  /** remove_mode_alias: reports a missing alias, otherwise deletes it. */
  function RemoveModeAlias(aliases: AliasTable, alias: string): (r: (Status, AliasTable))
    ensures r.0 == Done <==> alias in aliases
    ensures r.1 == aliases - {alias}
  {
    if alias !in aliases then (Failed("Alias '" + alias + "' does not exist!"), aliases)
    else (Done, aliases - {alias})
  }

  /** resolve_mode_alias: one lookup step, never an error. */
  function Resolve(aliases: AliasTable, name: string): (r: string)
    ensures name in aliases ==> r == aliases[name]
    ensures name !in aliases ==> r == name
  {
    if name in aliases then aliases[name] else name
  }

  /** Every alias points at an existing mode and no alias is a mode name. */
  ghost predicate AliasesSound(modes: ModeTable, aliases: AliasTable) {
    forall a :: a in aliases ==> aliases[a] in modes && a !in modes
  }

  /** When the aliases are sound, resolving a known alias yields a mode, and
      resolving twice is the same as resolving once. */
  lemma ResolveSound(modes: ModeTable, aliases: AliasTable, name: string)
    requires AliasesSound(modes, aliases)
    ensures name in aliases ==> Resolve(aliases, name) in modes
    ensures Resolve(aliases, Resolve(aliases, name)) == Resolve(aliases, name)
  {
  }

  lemma AddModeAliasKeepsSound(modes: ModeTable, aliases: AliasTable, alias: string, mode: string)
    requires AliasesSound(modes, aliases)
    ensures AliasesSound(modes, AddModeAlias(modes, aliases, alias, mode).1)
  {
  }

  lemma RemoveModeKeepsSound(modes: ModeTable, aliases: AliasTable, name: string)
    requires AliasesSound(modes, aliases)
    ensures var r := RemoveMode(modes, aliases, name); AliasesSound(r.1, r.2)
  {
  }

  lemma RemoveModeAliasKeepsSound(modes: ModeTable, aliases: AliasTable, alias: string)
    requires AliasesSound(modes, aliases)
    ensures AliasesSound(modes, RemoveModeAlias(aliases, alias).1)
  {
  }

  /** remove_game_mode does not delete aliases, so an alias can be left
      resolving to a mode that no longer exists. */
  lemma RemoveGameModeLeavesDanglingAlias()
    ensures var modes := map["ctf" := GameMode("CTF", 8, "", false, None)];
      var aliases := map["c" := "ctf"];
      var r := RemoveGameMode(modes, "CTF");
      && AliasesSound(modes, aliases)
      && r.0 == Done
      && Resolve(aliases, "c") == "ctf" && "ctf" !in r.1
      && !AliasesSound(r.1, aliases)
  {
    assert Lower("CTF") == "ctf";
    assert Lower("CTF") != "default";
  }

  /** add_game_mode does not look at the aliases, so a new mode can take the
      name of an alias, which then keeps resolving away from it. */
  lemma AddGameModeCanShadowAlias()
    ensures var modes := map["ctf" := GameMode("CTF", 8, "", false, None)];
      var aliases := map["c" := "ctf"];
      var r := AddGameMode(modes, "c", "C", 4, "");
      && AliasesSound(modes, aliases)
      && r.0 == Done && "c" in r.1
      && Resolve(aliases, "c") == "ctf"
      && !AliasesSound(r.1, aliases)
  {
    assert Lower("c") == "c";
  }

  /** The aliases of `mode`, as get_mode_aliases lists them. */
  function AliasesOf(aliases: AliasTable, mode: string): (r: set<string>)
    ensures forall a :: a in r <==> a in aliases && aliases[a] == mode
  {
    set a | a in aliases && aliases[a] == mode
  }

  /** set_per_mode_elo_for_mode: the exact name must exist; only its flag
      changes. */
  function SetPerModeElo(modes: ModeTable, mode: string, enabled: bool): (r: (Status, ModeTable))
    ensures r.0 == Done <==> mode in modes
    ensures r.1.Keys == modes.Keys
    ensures r.0 == Done ==> r.1 == modes[mode := modes[mode].(perModeElo := enabled)]
    ensures r.0 != Done ==> r.1 == modes
  {
    if mode !in modes then (Failed("Mode '" + mode + "' does not exist!"), modes)
    else (Done, modes[mode := modes[mode].(perModeElo := enabled)])
  }

  /** The stored form of an elo prefix: lower-cased, or NULL for none. */
  function StoredPrefix(prefix: string): Option<string> {
    if prefix == "" then None else Some(Lower(prefix))
  }

  /** set_mode_elo_prefix: the exact name must exist; only its prefix
      changes, to the stored form of the argument. */
  function SetEloPrefix(modes: ModeTable, mode: string, prefix: string): (r: (Status, ModeTable))
    ensures r.0 == Done <==> mode in modes
    ensures r.1.Keys == modes.Keys
    ensures r.0 == Done ==> r.1 == modes[mode := modes[mode].(eloPrefix := StoredPrefix(prefix))]
    ensures r.0 != Done ==> r.1 == modes
  {
    if mode !in modes then (Failed("Mode '" + mode + "' does not exist!"), modes)
    else (Done, modes[mode := modes[mode].(eloPrefix := StoredPrefix(prefix))])
  }

  lemma SettingsKeepSound(modes: ModeTable, aliases: AliasTable, mode: string, enabled: bool, prefix: string)
    requires AliasesSound(modes, aliases)
    ensures AliasesSound(SetPerModeElo(modes, mode, enabled).1, aliases)
    ensures AliasesSound(SetEloPrefix(modes, mode, prefix).1, aliases)
  {
  }

  /** get_mode_elo_prefix: the prefix when the mode exists and has a
      non-empty one. */
  function PrefixOf(modes: ModeTable, mode: string): (r: Option<string>)
    ensures r.Some? ==> r.value != "" && mode in modes && modes[mode].eloPrefix == r
    ensures r.None? ==> mode !in modes || modes[mode].eloPrefix in {None, Some("")}
  {
    if mode in modes && modes[mode].eloPrefix.Some? && modes[mode].eloPrefix.value != "" then modes[mode].eloPrefix
    else None
  }

  /** get_effective_mode_for_elo: the key of the rating row a mode's matches
      update, its prefix if it has one, else its own name. */
  function EffectiveKey(modes: ModeTable, mode: string): string {
    match PrefixOf(modes, mode)
    case Some(p) => p
    case None => mode
  }

  /** A mode without a prefix rates under its own name. */
  lemma EffectiveKeyWithoutPrefix(modes: ModeTable, mode: string)
    requires mode !in modes || modes[mode].eloPrefix.None?
    ensures EffectiveKey(modes, mode) == mode
  {
  }

  /** Two modes given the same non-empty prefix share one rating key, the
      lower-cased prefix (so ctf2v2 and ctf5v5 with prefix "CTF" both read
      and write the rows under "ctf"). */
  lemma SharedPrefixSharesKey(modes: ModeTable, m1: string, m2: string, prefix: string)
    requires m1 in modes && m2 in modes && prefix != ""
    ensures var after := SetEloPrefix(SetEloPrefix(modes, m1, prefix).1, m2, prefix).1;
      EffectiveKey(after, m1) == Lower(prefix) && EffectiveKey(after, m2) == Lower(prefix)
  {
    assert |Lower(prefix)| == |prefix|;
  }

  /** get_modes_with_per_mode_elo. */
  function PerModeEloModes(modes: ModeTable): (r: set<string>)
    ensures forall m :: m in r <==> m in modes && modes[m].perModeElo
  {
    set m | m in modes && modes[m].perModeElo
  }
}
