/** bot_settings: a key-value table of text, seeded with defaults that never
    overwrite a stored value, read by the feature switches. */
module Settings {
  import opened Wrappers
  import opened Modes

  type SettingTable = map<string, string>

  /** The defaults init_database inserts with INSERT OR IGNORE. */
  const Defaults: map<string, string> :=
    map["scraping_enabled" := "false", "per_mode_elo_enabled" := "false", "pug_counter" := "0"]

  /** INSERT OR IGNORE of one key: a stored value is kept. */
  function InsertOrIgnore(t: SettingTable, key: string, value: string): (r: SettingTable)
    ensures r.Keys == t.Keys + {key}
    ensures forall k :: k in t ==> r[k] == t[k]
    ensures key !in t ==> r[key] == value
  {
    if key in t then t else t[key := value]
  }

  lemma DefaultEntries()
    ensures Defaults.Keys == {"scraping_enabled", "per_mode_elo_enabled", "pug_counter"}
    ensures Defaults["scraping_enabled"] == "false" && Defaults["per_mode_elo_enabled"] == "false"
    ensures Defaults["pug_counter"] == "0"
    ensures "scraping_enabled" != "per_mode_elo_enabled" && "scraping_enabled" != "pug_counter"
    ensures "per_mode_elo_enabled" != "pug_counter"
  {
    assert "scraping_enabled"[0] != "per_mode_elo_enabled"[0];
    assert "scraping_enabled"[0] != "pug_counter"[0];
    assert "per_mode_elo_enabled"[1] != "pug_counter"[1];
  }

  /** The settings seeding of init_database. */
  function Seed(t: SettingTable): (r: SettingTable)
    ensures r.Keys == t.Keys + Defaults.Keys
    ensures forall k :: k in t ==> r[k] == t[k]
    ensures forall k :: k in Defaults && k !in t ==> r[k] == Defaults[k]
  {
    DefaultEntries();
    var a := InsertOrIgnore(t, "scraping_enabled", "false");
    var b := InsertOrIgnore(a, "per_mode_elo_enabled", "false");
    var c := InsertOrIgnore(b, "pug_counter", "0");
    assert forall k :: k in Defaults && k !in t ==> c[k] == Defaults[k] by {
      forall k | k in Defaults && k !in t ensures c[k] == Defaults[k] {
        assert k == "scraping_enabled" || k == "per_mode_elo_enabled" || k == "pug_counter";
      }
    }
    c
  }

  /** Seeding twice is seeding once, so reopening the store keeps every
      value an administrator has set. */
  lemma SeedIdempotent(t: SettingTable)
    ensures Seed(Seed(t)) == Seed(t)
  {
  }

  /** get_setting */
  function Get(t: SettingTable, key: string): (r: Option<string>)
    ensures r.Some? <==> key in t
    ensures r.Some? ==> r.value == t[key]
  {
    if key in t then Some(t[key]) else None
  }

  /** set_setting: INSERT OR REPLACE, so the new value wins. */
  function Set(t: SettingTable, key: string, value: string): (r: SettingTable)
    ensures Get(r, key) == Some(value)
    ensures forall k :: k != key ==> Get(r, k) == Get(t, k)
  {
    t[key := value]
  }

  /** A switch is on exactly when its stored value is the text 'true'; a
      missing or empty value reads as off. */
  function Switch(t: SettingTable, key: string): (r: bool)
    ensures r <==> Get(t, key) == Some("true")
  {
    match Get(t, key)
    case Some(v) => v == "true"
    case None => false
  }

  /** The text set_scraping_enabled and set_per_mode_elo_enabled store. */
  function SwitchText(enabled: bool): string {
    if enabled then "true" else "false"
  }

  /** Setting a switch and reading it back gives the value set. */
  lemma SwitchRoundTrip(t: SettingTable, key: string, enabled: bool)
    ensures Switch(Set(t, key, SwitchText(enabled)), key) == enabled
  {
  }

  /** A freshly seeded store has both switches off. */
  lemma SeededSwitchesOff()
    ensures !Switch(Seed(map[]), "scraping_enabled")
    ensures !Switch(Seed(map[]), "per_mode_elo_enabled")
  {
  }

  /** is_per_mode_elo_enabled: with a mode name, that mode's own flag (off
      for a mode that does not exist); without one, the deprecated global
      switch. */
  function PerModeEloEnabled(modes: ModeTable, t: SettingTable, mode: string): (r: bool)
    ensures mode != "" ==> (r <==> mode in modes && modes[mode].perModeElo)
    ensures mode == "" ==> r == Switch(t, "per_mode_elo_enabled")
  {
    if mode != "" then mode in modes && modes[mode].perModeElo
    else Switch(t, "per_mode_elo_enabled")
  }

  /** The per-mode flag is independent of the global switch once a mode is
      named, and a mode set through set_per_mode_elo_for_mode reads back as
      set. */
  lemma PerModeFlagRoundTrip(modes: ModeTable, t: SettingTable, mode: string, enabled: bool)
    requires mode in modes && mode != ""
    ensures PerModeEloEnabled(SetPerModeElo(modes, mode, enabled).1, t, mode) == enabled
  {
  }
}
