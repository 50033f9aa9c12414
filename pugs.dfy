/** The pug ledger: pugs rows keyed by their AUTOINCREMENT pug_id, the
    pug_teams rows that list each match's members, and the newest-first
    listing of get_recent_pugs. */
module Pugs {
  import opened Wrappers

  datatype Team = Red | Blue

  /** A pug is 'active' until it is killed; a killed pug keeps its rows. */
  datatype PugStatus = Active | Killed

  /** One pugs row (the timestamp is left out). */
  datatype Pug = Pug(
    gameMode: string,
    winner: Option<string>,
    avgRedElo: real,
    avgBlueElo: real,
    status: PugStatus,
    tiebreakerMap: Option<string>)

  /** One pug_teams row. */
  datatype TeamRow = TeamRow(pugId: int, discordId: string, team: Team)

  /** The row add_pug inserts: no winner yet, status 'active'. */
  function NewPug(gameMode: string, avgRedElo: real, avgBlueElo: real, tiebreakerMap: Option<string>): (p: Pug)
    ensures p.status == Active && p.winner.None?
    ensures p.gameMode == gameMode && p.avgRedElo == avgRedElo && p.avgBlueElo == avgBlueElo
    ensures p.tiebreakerMap == tiebreakerMap
  {
    Pug(gameMode, None, avgRedElo, avgBlueElo, Active, tiebreakerMap)
  }

  /** update_pug_winner on one row: only the winner changes (the status is
      not set to anything). */
  function WithWinner(p: Pug, winner: string): (r: Pug)
    ensures r.winner == Some(winner)
    ensures r.(winner := p.winner) == p
  {
    p.(winner := Some(winner))
  }

  /** delete_pug on one row: only the status changes, to 'killed'. */
  function Kill(p: Pug): (r: Pug)
    ensures r.status == Killed
    ensures r.(status := p.status) == p
  {
    p.(status := Killed)
  }

  /** The team rows add_pug inserts for one side, in roster order. */
  function RowsFor(id: int, members: seq<string>, team: Team): (r: seq<TeamRow>)
    ensures |r| == |members|
    ensures forall i :: 0 <= i < |r| ==> r[i] == TeamRow(id, members[i], team)
  {
    seq(|members|, i requires 0 <= i < |members| => TeamRow(id, members[i], team))
  }

  /** The members of one side of pug `id`, in row order, as
      get_recent_pugs splits the rows it selects. */
  function Members(rows: seq<TeamRow>, id: int, team: Team): seq<string>
    decreases |rows|
  {
    if rows == [] then []
    else
      var last := rows[|rows| - 1];
      Members(rows[..|rows| - 1], id, team) + (if last.pugId == id && last.team == team then [last.discordId] else [])
  }

  lemma {:induction false} MembersAppend(a: seq<TeamRow>, b: seq<TeamRow>, id: int, team: Team)
    ensures Members(a + b, id, team) == Members(a, id, team) + Members(b, id, team)
    decreases |b|
  {
    if b == [] {
      assert a + b == a;
    } else {
      var p := b[..|b| - 1];
      assert (a + b)[..|a + b| - 1] == a + p;
      MembersAppend(a, p, id, team);
    }
  }

  lemma {:induction false} MembersOfRows(id: int, members: seq<string>, team: Team, j: int, side: Team)
    ensures Members(RowsFor(id, members, team), j, side) == (if j == id && side == team then members else [])
    decreases |members|
  {
    if members != [] {
      var p := members[..|members| - 1];
      assert RowsFor(id, members, team)[..|members| - 1] == RowsFor(id, p, team);
      MembersOfRows(id, p, team, j, side);
      assert p + [members[|members| - 1]] == members;
    }
  }

  lemma {:induction false} MembersNone(rows: seq<TeamRow>, id: int, team: Team)
    requires forall r :: r in rows ==> r.pugId != id
    ensures Members(rows, id, team) == []
    decreases |rows|
  {
    if rows != [] {
      MembersNone(rows[..|rows| - 1], id, team);
    }
  }

  /** Any roster read over the rows add_pug appends: the old roster, plus
      the new red or blue members when it asks for the new pug. */
  lemma MembersAfterAdd(rows: seq<TeamRow>, id: int, red: seq<string>, blue: seq<string>, j: int, side: Team)
    ensures Members(rows + RowsFor(id, red, Red) + RowsFor(id, blue, Blue), j, side)
      == Members(rows, j, side)
         + (if j == id && side == Red then red else [])
         + (if j == id && side == Blue then blue else [])
  {
    var a := RowsFor(id, red, Red);
    var b := RowsFor(id, blue, Blue);
    MembersAppend(rows + a, b, j, side);
    MembersAppend(rows, a, j, side);
    MembersOfRows(id, red, Red, j, side);
    MembersOfRows(id, blue, Blue, j, side);
  }

  /** The rows add_pug appends read back as exactly the rosters it was
      given, red and blue, while every other pug's rosters stay as they
      were. */
  lemma RostersReadBack(rows: seq<TeamRow>, id: int, red: seq<string>, blue: seq<string>, j: int, side: Team)
    requires forall r :: r in rows ==> r.pugId != id
    ensures var after := rows + RowsFor(id, red, Red) + RowsFor(id, blue, Blue);
      && Members(after, id, Red) == red
      && Members(after, id, Blue) == blue
      && (j != id ==> Members(after, j, side) == Members(rows, j, side))
  {
    var after := rows + RowsFor(id, red, Red) + RowsFor(id, blue, Blue);
    assert Members(after, id, Red) == red by {
      MembersAfterAdd(rows, id, red, blue, id, Red);
      MembersNone(rows, id, Red);
      assert [] + red + [] == red;
    }
    assert Members(after, id, Blue) == blue by {
      MembersAfterAdd(rows, id, red, blue, id, Blue);
      MembersNone(rows, id, Blue);
      assert [] + [] + blue == blue;
    }
    if j != id {
      MembersAfterAdd(rows, id, red, blue, j, side);
    }
  }

  /** The ids of the pugs in (lo, hi], highest first. */
  function IdsBetween(pugs: map<int, Pug>, lo: int, hi: int): seq<int>
    decreases hi - lo
  {
    if hi <= lo then []
    else (if hi in pugs then [hi] else []) + IdsBetween(pugs, lo, hi - 1)
  }

  ghost predicate StrictlyDescending(s: seq<int>) {
    forall i, j :: 0 <= i < j < |s| ==> s[i] > s[j]
  }

  /** IdsBetween lists exactly the pugs in its range, each once, highest
      first. */
  lemma {:induction false} IdsBetweenSpec(pugs: map<int, Pug>, lo: int, hi: int)
    ensures forall x :: x in IdsBetween(pugs, lo, hi) <==> x in pugs && lo < x <= hi
    ensures StrictlyDescending(IdsBetween(pugs, lo, hi))
    decreases hi - lo
  {
    if hi > lo {
      var tail := IdsBetween(pugs, lo, hi - 1);
      IdsBetweenSpec(pugs, lo, hi - 1);
      var s := IdsBetween(pugs, lo, hi);
      forall i, j | 0 <= i < j < |s| ensures s[i] > s[j] {
        if hi in pugs {
          assert s[j] == tail[j - 1];
          if i > 0 {
            assert s[i] == tail[i - 1];
          } else {
            assert tail[j - 1] in tail;
          }
        } else {
          assert s == tail;
        }
      }
    }
  }

  /** SQL LIMIT: a negative limit means no limit. */
  function Take<T>(limit: int, s: seq<T>): (r: seq<T>)
    ensures limit < 0 || limit >= |s| ==> r == s
    ensures 0 <= limit < |s| ==> r == s[..limit]
  {
    if limit < 0 || limit >= |s| then s else s[..limit]
  }

  /** The ids get_recent_pugs selects: ORDER BY pug_id DESC LIMIT `limit`
      over the ids up to the AUTOINCREMENT counter `hi`. */
  function RecentIds(pugs: map<int, Pug>, hi: int, limit: int): seq<int> {
    Take(limit, IdsBetween(pugs, 0, hi))
  }

  /** get_recent_pugs returns at most `limit` pugs (all of them for a
      negative limit), newest first, and skips none: every pug newer than
      one it returns is returned too, and when it returns fewer than
      `limit` it returns every pug. */
  lemma {:induction false} RecentIdsSpec(pugs: map<int, Pug>, hi: int, limit: int)
    requires forall x :: x in pugs ==> 0 < x <= hi
    ensures var r := RecentIds(pugs, hi, limit);
      && StrictlyDescending(r)
      && (forall x :: x in r ==> x in pugs)
      && (limit >= 0 ==> |r| <= limit)
      && (forall x, y :: y in r && x in pugs && x > y ==> x in r)
      && ((limit < 0 || |r| < limit) ==> forall x :: x in pugs ==> x in r)
  {
    var all := IdsBetween(pugs, 0, hi);
    IdsBetweenSpec(pugs, 0, hi);
    var r := RecentIds(pugs, hi, limit);
    assert forall k :: 0 <= k < |r| ==> r[k] == all[k];
    forall x, y | y in r && x in pugs && x > y ensures x in r {
      var i :| 0 <= i < |r| && r[i] == y;
      var j :| 0 <= j < |all| && all[j] == x;
      assert all[i] == y;
      assert j < i;
      assert r[j] == x;
    }
  }

  /** What get_recent_pugs reports for one pug. */
  datatype PugView = PugView(id: int, pug: Pug, red: seq<string>, blue: seq<string>)

  function View(pugs: map<int, Pug>, rows: seq<TeamRow>, id: int): PugView
    requires id in pugs
  {
    PugView(id, pugs[id], Members(rows, id, Red), Members(rows, id, Blue))
  }

  /** What get_recent_pugs returns: the selected ids, each with its pug row
      and its two rosters. */
  function RecentPugs(pugs: map<int, Pug>, rows: seq<TeamRow>, hi: int, limit: int): (r: seq<PugView>)
    requires forall x :: x in pugs ==> 0 < x <= hi
  {
    var ids := RecentIds(pugs, hi, limit);
    RecentIdsSpec(pugs, hi, limit);
    seq(|ids|, i requires 0 <= i < |ids| => View(pugs, rows, ids[i]))
  }

  /** The views are those of the selected ids, in the same order. */
  lemma {:induction false} RecentPugsShape(pugs: map<int, Pug>, rows: seq<TeamRow>, hi: int, limit: int)
    requires forall x :: x in pugs ==> 0 < x <= hi
    ensures var r := RecentPugs(pugs, rows, hi, limit);
      var ids := RecentIds(pugs, hi, limit);
      && |r| == |ids|
      && forall i :: 0 <= i < |r| ==> ids[i] in pugs && r[i] == View(pugs, rows, ids[i]) && r[i].id == ids[i]
  {
    RecentIdsSpec(pugs, hi, limit);
  }

  /** No pug is skipped: a pug newer than a listed one is listed, and a
      short listing lists every pug. */
  lemma {:induction false} RecentPugsComplete(pugs: map<int, Pug>, rows: seq<TeamRow>, hi: int, limit: int)
    requires forall x :: x in pugs ==> 0 < x <= hi
    ensures var r := RecentPugs(pugs, rows, hi, limit);
      && (forall i, x :: 0 <= i < |r| && x in pugs && x > r[i].id ==> exists j :: 0 <= j < |r| && r[j].id == x)
      && ((limit < 0 || |r| < limit) ==> forall x :: x in pugs ==> exists j :: 0 <= j < |r| && r[j].id == x)
  {
    var ids := RecentIds(pugs, hi, limit);
    RecentIdsSpec(pugs, hi, limit);
    RecentPugsShape(pugs, rows, hi, limit);
    var r := RecentPugs(pugs, rows, hi, limit);
    forall i, x | 0 <= i < |r| && x in pugs && x > r[i].id
      ensures exists j :: 0 <= j < |r| && r[j].id == x
    {
      assert ids[i] in ids;
      var j :| 0 <= j < |ids| && ids[j] == x;
      assert r[j].id == x;
    }
    if limit < 0 || |r| < limit {
      forall x | x in pugs
        ensures exists j :: 0 <= j < |r| && r[j].id == x
      {
        var j :| 0 <= j < |ids| && ids[j] == x;
        assert r[j].id == x;
      }
    }
  }

  /** The views carry the rows and rosters of their pugs, at most `limit`
      of them, newest first, with no pug skipped. */
  lemma {:induction false} RecentPugsSpec(pugs: map<int, Pug>, rows: seq<TeamRow>, hi: int, limit: int)
    requires forall x :: x in pugs ==> 0 < x <= hi
    ensures var r := RecentPugs(pugs, rows, hi, limit);
      && (forall i :: 0 <= i < |r| ==> r[i].id in pugs && r[i] == View(pugs, rows, r[i].id))
      && (limit >= 0 ==> |r| <= limit)
      && (forall i, j :: 0 <= i < j < |r| ==> r[i].id > r[j].id)
      && (forall i, x :: 0 <= i < |r| && x in pugs && x > r[i].id ==> exists j :: 0 <= j < |r| && r[j].id == x)
      && ((limit < 0 || |r| < limit) ==> forall x :: x in pugs ==> exists j :: 0 <= j < |r| && r[j].id == x)
  {
    RecentIdsSpec(pugs, hi, limit);
    RecentPugsShape(pugs, rows, hi, limit);
    RecentPugsComplete(pugs, rows, hi, limit);
  }
}
