/** Map pools and the map cooldown log. A pool is identified by
    (server_id, mode_prefix) with the prefix lower-cased on every write and
    every lookup; the cooldown log is ordered by insertion, which stands for
    the used_at timestamps. */
module MapPools {
  import opened Wrappers
  import opened Text
  import Pugs

  /** One maps row; (server, prefix, name) is UNIQUE. */
  datatype MapRow = MapRow(server: string, prefix: string, name: string)

  /** One map_cooldowns row. */
  datatype Cooldown = Cooldown(server: string, prefix: string, name: string)

  ghost predicate UniqueRows(rows: seq<MapRow>) {
    forall i, j :: 0 <= i < j < |rows| ==> rows[i] != rows[j]
  }

  /** add_map: a row already present for the pool is reported with the
      prefix as the caller spelled it; otherwise the row is appended. */
  function AddMap(rows: seq<MapRow>, server: string, prefix: string, name: string): (r: (Status, seq<MapRow>))
    ensures r.0 == Done <==> MapRow(server, Lower(prefix), name) !in rows
    ensures r.0 != Done ==> r.0 == Failed("Map '" + name + "' already exists for " + prefix + "!") && r.1 == rows
    ensures r.0 == Done ==> r.1 == rows + [MapRow(server, Lower(prefix), name)]
    ensures UniqueRows(rows) ==> UniqueRows(r.1)
  {
    var row := MapRow(server, Lower(prefix), name);
    if row in rows then (Failed("Map '" + name + "' already exists for " + prefix + "!"), rows)
    else (Done, rows + [row])
  }

  function Without(rows: seq<MapRow>, row: MapRow): (r: seq<MapRow>)
    ensures forall x :: x in r <==> x in rows && x != row
    ensures |r| <= |rows|
    ensures UniqueRows(rows) ==> UniqueRows(r)
    decreases |rows|
  {
    if rows == [] then []
    else
      assert UniqueRows(rows) ==> rows[|rows| - 1] !in rows[..|rows| - 1];
      Without(rows[..|rows| - 1], row) + (if rows[|rows| - 1] == row then [] else [rows[|rows| - 1]])
  }

  /** remove_map: deletes the row; reports "not found" exactly when there
      was none, and then nothing changes. */
  function RemoveMap(rows: seq<MapRow>, server: string, prefix: string, name: string): (r: (Status, seq<MapRow>))
    ensures r.0 == Done <==> MapRow(server, Lower(prefix), name) in rows
    ensures r.0 != Done ==> r.0 == Failed("Map '" + name + "' not found for " + prefix + "!") && r.1 == rows
    ensures forall x :: x in r.1 <==> x in rows && x != MapRow(server, Lower(prefix), name)
    ensures UniqueRows(rows) ==> UniqueRows(r.1)
  {
    var row := MapRow(server, Lower(prefix), name);
    if row in rows then (Done, Without(rows, row))
    else (Failed("Map '" + name + "' not found for " + prefix + "!"), rows)
  }

  /** Adding a map and removing it again leaves the same set of maps. */
  lemma AddThenRemoveMap(rows: seq<MapRow>, server: string, prefix: string, name: string)
    ensures var a := AddMap(rows, server, prefix, name);
      a.0 == Done ==> forall x :: x in RemoveMap(a.1, server, prefix, name).1 <==> x in rows
  {
  }

  /** The names of a pool in the order of the rows. */
  function PoolNames(rows: seq<MapRow>, server: string, prefix: string): (r: seq<string>)
    ensures forall n :: n in r <==> MapRow(server, prefix, n) in rows
    decreases |rows|
  {
    if rows == [] then []
    else
      var last := rows[|rows| - 1];
      PoolNames(rows[..|rows| - 1], server, prefix) + (if last.server == server && last.prefix == prefix then [last.name] else [])
  }

  /** A sequence of names put in ascending BINARY order, duplicates
      dropped. */
  function SortNames(s: seq<string>): (r: seq<string>)
    ensures Ascending(r)
    ensures forall n :: n in r <==> n in s
    decreases |s|
  {
    if s == [] then [] else InsertAscending(SortNames(s[..|s| - 1]), s[|s| - 1])
  }

  /** get_maps_for_mode: the pool's names, each once, in ascending order. */
  function MapsForMode(rows: seq<MapRow>, server: string, prefix: string): (r: seq<string>)
    ensures Ascending(r)
    ensures forall n :: n in r <==> MapRow(server, Lower(prefix), n) in rows
  {
    SortNames(PoolNames(rows, server, Lower(prefix)))
  }

  /** get_all_maps_grouped: for every prefix with a map on the server, that
      pool's names in ascending order. */
  function AllMapsGrouped(rows: seq<MapRow>, server: string): (r: map<string, seq<string>>)
    ensures forall p :: p in r <==> exists n :: MapRow(server, p, n) in rows
    ensures forall p :: p in r ==> Ascending(r[p]) && forall n :: n in r[p] <==> MapRow(server, p, n) in rows
  {
    map p | p in (set x | x in rows && x.server == server :: x.prefix) :: SortNames(PoolNames(rows, server, p))
  }

  /** add_map_to_cooldown: appends a use of the map to the log. */
  function AddCooldown(log: seq<Cooldown>, server: string, prefix: string, name: string): (r: seq<Cooldown>)
    ensures r == log + [Cooldown(server, Lower(prefix), name)]
  {
    log + [Cooldown(server, Lower(prefix), name)]
  }

  function InPool(c: Cooldown, server: string, prefix: string): bool {
    c.server == server && c.prefix == prefix
  }

  /** The uses of one pool, oldest first. */
  function Pool(log: seq<Cooldown>, server: string, prefix: string): seq<string>
    decreases |log|
  {
    if log == [] then []
    else
      var last := log[|log| - 1];
      Pool(log[..|log| - 1], server, prefix) + (if InPool(last, server, prefix) then [last.name] else [])
  }

  function Reverse<T>(s: seq<T>): (r: seq<T>)
    ensures |r| == |s|
    ensures forall i :: 0 <= i < |s| ==> r[i] == s[|s| - 1 - i]
    decreases |s|
  {
    if s == [] then [] else [s[|s| - 1]] + Reverse(s[..|s| - 1])
  }

  /** get_maps_on_cooldown: the `n` most recent uses of the pool, newest
      first (all of them for a negative `n`, or when the pool has fewer). */
  function Recent(log: seq<Cooldown>, server: string, prefix: string, n: int): (r: seq<string>)
    ensures var p := Pool(log, server, Lower(prefix));
      |r| == (if 0 <= n < |p| then n else |p|) &&
      forall i :: 0 <= i < |r| ==> r[i] == p[|p| - 1 - i]
  {
    Pugs.Take(n, Reverse(Pool(log, server, Lower(prefix))))
  }

  /** The log after clear_old_cooldowns on the pool (server, prefix) with
      an already lower-cased prefix: walking back from the newest entry,
      the first `keep` uses of the pool stay and older ones go; entries of
      other pools all stay. A negative `keep` keeps everything. */
  function Pruned(log: seq<Cooldown>, server: string, prefix: string, keep: int): (r: seq<Cooldown>)
    ensures |r| <= |log|
    decreases |log|
  {
    if log == [] then []
    else
      var last := log[|log| - 1];
      var init := log[..|log| - 1];
      if !InPool(last, server, prefix) then Pruned(init, server, prefix, keep) + [last]
      else if keep == 0 then Pruned(init, server, prefix, 0)
      else Pruned(init, server, prefix, keep - 1) + [last]
  }

  lemma PoolAppend(a: seq<Cooldown>, c: Cooldown, server: string, prefix: string)
    ensures Pool(a + [c], server, prefix) == Pool(a, server, prefix) + (if InPool(c, server, prefix) then [c.name] else [])
  {
    assert (a + [c])[..|a + [c]| - 1] == a;
  }

  /** A use just logged is the newest one on cooldown for its pool. */
  lemma RecentAfterAdd(log: seq<Cooldown>, server: string, prefix: string, name: string)
    ensures Recent(AddCooldown(log, server, prefix, name), server, prefix, 1) == [name]
  {
    var c := Cooldown(server, Lower(prefix), name);
    PoolAppend(log, c, server, Lower(prefix));
    var p := Pool(log + [c], server, Lower(prefix));
    assert Reverse(p)[0] == name;
  }

  /** Pruning one pool leaves every other pool exactly as it was. */
  lemma {:induction false} PrunedKeepsOtherPools(log: seq<Cooldown>, server: string, prefix: string, keep: int, s2: string, p2: string)
    requires (s2, p2) != (server, prefix)
    ensures Pool(Pruned(log, server, prefix, keep), s2, p2) == Pool(log, s2, p2)
    decreases |log|
  {
    if log != [] {
      var last := log[|log| - 1];
      var init := log[..|log| - 1];
      if !InPool(last, server, prefix) {
        PrunedKeepsOtherPools(init, server, prefix, keep, s2, p2);
        PoolAppend(Pruned(init, server, prefix, keep), last, s2, p2);
      } else if keep == 0 {
        PrunedKeepsOtherPools(init, server, prefix, 0, s2, p2);
      } else {
        PrunedKeepsOtherPools(init, server, prefix, keep - 1, s2, p2);
        PoolAppend(Pruned(init, server, prefix, keep - 1), last, s2, p2);
      }
    }
  }

  /** The newest `keep` elements of `p`, all of them for a negative
      `keep`. */
  function Newest<T>(p: seq<T>, keep: int): (r: seq<T>)
    ensures keep >= 0 ==> |r| <= keep
  {
    if keep < 0 || keep >= |p| then p else p[|p| - keep..]
  }

  /** The pruned pool is the newest min(keep, size) uses of the old pool,
      in their order; a negative `keep` keeps the whole pool. */
  lemma {:induction false} PrunedPool(log: seq<Cooldown>, server: string, prefix: string, keep: int)
    ensures Pool(Pruned(log, server, prefix, keep), server, prefix) == Newest(Pool(log, server, prefix), keep)
    decreases |log|
  {
    if log != [] {
      var last := log[|log| - 1];
      var init := log[..|log| - 1];
      var p0 := Pool(init, server, prefix);
      var p := Pool(log, server, prefix);
      var r := Pool(Pruned(log, server, prefix, keep), server, prefix);
      if !InPool(last, server, prefix) {
        PrunedPool(init, server, prefix, keep);
        assert r == Newest(p, keep) by {
          assert Pruned(log, server, prefix, keep) == Pruned(init, server, prefix, keep) + [last];
          PoolAppend(Pruned(init, server, prefix, keep), last, server, prefix);
          assert p == p0;
        }
      } else if keep == 0 {
        PrunedPool(init, server, prefix, 0);
        assert r == Newest(p, keep) by {
          assert Pruned(log, server, prefix, keep) == Pruned(init, server, prefix, 0);
        }
      } else {
        PrunedPool(init, server, prefix, keep - 1);
        assert r == Newest(p, keep) by {
          assert Pruned(log, server, prefix, keep) == Pruned(init, server, prefix, keep - 1) + [last];
          PoolAppend(Pruned(init, server, prefix, keep - 1), last, server, prefix);
          assert p == p0 + [last.name];
          NewestAppend(p0, last.name, keep);
        }
      }
    }
  }

  /** Keeping the newest `keep` of a sequence that grew by one keeps the
      newest `keep - 1` of the old one, then the new element. */
  lemma NewestAppend<T>(p: seq<T>, x: T, keep: int)
    requires keep != 0
    ensures Newest(p + [x], keep) == Newest(p, keep - 1) + [x]
  {
    var q := p + [x];
    if 0 < keep < |q| {
      assert q[|q| - keep..] == p[|p| - (keep - 1)..] + [x];
    }
  }

  lemma {:induction false} ReverseSuffix<T>(p: seq<T>, m: int)
    requires 0 <= m <= |p|
    ensures Reverse(p[|p| - m..]) == Reverse(p)[..m]
  {
    var a, b := Reverse(p[|p| - m..]), Reverse(p)[..m];
    assert |a| == |b|;
    forall i | 0 <= i < m ensures a[i] == b[i] {
      assert a[i] == p[|p| - m..][m - 1 - i] == p[|p| - 1 - i];
    }
  }

  /** Pruning to `keep` entries does not change what get_maps_on_cooldown
      reports for any count up to `keep`. */
  lemma RecentSurvivesPruning(log: seq<Cooldown>, server: string, prefix: string, keep: int, n: int)
    requires 0 <= n <= keep
    ensures Recent(Pruned(log, server, Lower(prefix), keep), server, prefix, n) == Recent(log, server, prefix, n)
  {
    var p := Pool(log, server, Lower(prefix));
    PrunedPool(log, server, Lower(prefix), keep);
    if keep < |p| {
      ReverseSuffix(p, keep);
      assert Reverse(p)[..keep][..n] == Reverse(p)[..n];
    }
  }

  /** Four uses A, B, C, D of one pool: the three on cooldown are D, C, B,
      newest first. */
  lemma RecentExample(server: string)
    ensures var log := [Cooldown(server, "ctf", "A"), Cooldown(server, "ctf", "B"),
                        Cooldown(server, "ctf", "C"), Cooldown(server, "ctf", "D")];
      Recent(log, server, "CTF", 3) == ["D", "C", "B"]
  {
    var log := [Cooldown(server, "ctf", "A"), Cooldown(server, "ctf", "B"),
                Cooldown(server, "ctf", "C"), Cooldown(server, "ctf", "D")];
    assert Lower("CTF") == "ctf";
    assert log[..1][..0] == [] && log[..2][..1] == log[..1] && log[..3][..2] == log[..2] && log[..4][..3] == log[..3];
    assert Pool(log[..1], server, "ctf") == ["A"];
    assert Pool(log[..2], server, "ctf") == ["A", "B"];
    assert Pool(log[..3], server, "ctf") == ["A", "B", "C"];
    assert log[..4] == log;
    assert Pool(log, server, "ctf") == ["A", "B", "C", "D"];
  }

  /** A pool lists exactly the names its log entries carry. */
  lemma {:induction false} PoolMembers(log: seq<Cooldown>, server: string, prefix: string, n: string)
    ensures n in Pool(log, server, prefix) <==> Cooldown(server, prefix, n) in log
    decreases |log|
  {
    if log != [] {
      var init := log[..|log| - 1];
      PoolMembers(init, server, prefix, n);
      assert log == init + [log[|log| - 1]];
    }
  }

  /** get_maps_on_cooldown reports at most `n` names (any number for a
      negative `n`), each a use of the pool that is in the log. */
  lemma RecentFromLog(log: seq<Cooldown>, server: string, prefix: string, n: int)
    ensures n >= 0 ==> |Recent(log, server, prefix, n)| <= n
    ensures forall m :: m in Recent(log, server, prefix, n) ==> Cooldown(server, Lower(prefix), m) in log
  {
    var p := Pool(log, server, Lower(prefix));
    forall m | m in Recent(log, server, prefix, n)
      ensures Cooldown(server, Lower(prefix), m) in log
    {
      var r := Reverse(p);
      var i :| 0 <= i < |Recent(log, server, prefix, n)| && Recent(log, server, prefix, n)[i] == m;
      assert r[i] == p[|p| - 1 - i];
      PoolMembers(log, server, Lower(prefix), m);
    }
  }
}
