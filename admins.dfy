/** pug_admins: (discord_id, server_id) pairs, a primary key, in insertion
    order. */
module Admins {

  type AdminRows = seq<(string, string)>

  ghost predicate Distinct(rows: AdminRows) {
    forall i, j :: 0 <= i < j < |rows| ==> rows[i] != rows[j]
  }

  /** add_pug_admin: INSERT OR IGNORE, so an existing pair is kept as is. */
  function Add(rows: AdminRows, id: string, server: string): (r: AdminRows)
    ensures forall x :: x in r <==> x in rows || x == (id, server)
    ensures (id, server) in rows ==> r == rows
    ensures Distinct(rows) ==> Distinct(r)
  {
    if (id, server) in rows then rows else rows + [(id, server)]
  }

  /** remove_pug_admin: deletes the pair; the other pairs keep their order. */
  function Remove(rows: AdminRows, id: string, server: string): (r: AdminRows)
    ensures forall x :: x in r <==> x in rows && x != (id, server)
    ensures Distinct(rows) ==> Distinct(r)
    decreases |rows|
  {
    if rows == [] then []
    else
      var init := Remove(rows[..|rows| - 1], id, server);
      var last := rows[|rows| - 1];
      assert Distinct(rows) ==> last !in rows[..|rows| - 1];
      if last == (id, server) then init else init + [last]
  }

  /** get_pug_admins: the admins of one server, or of all servers for the
      empty server id. */
  function AdminsOf(rows: AdminRows, server: string): (r: seq<string>)
    ensures server != "" ==> forall d :: d in r <==> (d, server) in rows
    ensures server == "" ==> forall d :: d in r <==> exists s :: (d, s) in rows
    ensures |r| <= |rows|
    decreases |rows|
  {
    if rows == [] then []
    else
      var last := rows[|rows| - 1];
      AdminsOf(rows[..|rows| - 1], server) + (if server == "" || last.1 == server then [last.0] else [])
  }

  /** Adding twice is adding once, an added admin is an admin, and a removed
      one is not, while every other pair keeps its standing. */
  lemma AddRemoveSpec(rows: AdminRows, id: string, server: string, other: (string, string))
    ensures Add(Add(rows, id, server), id, server) == Add(rows, id, server)
    ensures (id, server) in Add(rows, id, server)
    ensures (id, server) !in Remove(Add(rows, id, server), id, server)
    ensures other != (id, server) ==>
      (other in Remove(rows, id, server) <==> other in rows) && (other in Add(rows, id, server) <==> other in rows)
  {
  }
}
