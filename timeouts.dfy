/** The timeouts table: one end instant per discord_id. Instants are
    integers standing for the ISO timestamps the table stores, and the
    current instant is a parameter. */
module Timeouts {
  import opened Wrappers

  type TimeoutTable = map<string, int>

  /** add_timeout: INSERT OR REPLACE, so the latest call wins. */
  function AddTimeout(t: TimeoutTable, id: string, end: int): (r: TimeoutTable)
    ensures id in r && r[id] == end
    ensures forall j :: j != id ==> (j in r <==> j in t) && (j in t ==> r[j] == t[j])
  {
    t[id := end]
  }

  /** What is_timed_out reports at instant `now`, and the table it leaves. */
  datatype Check = Check(timedOut: bool, until: Option<int>, table: TimeoutTable)

  /** is_timed_out: a stored end after `now` means timed out until then; an
      end at or before `now` is deleted and reported as not timed out. */
  function IsTimedOut(t: TimeoutTable, id: string, now: int): (r: Check)
    ensures r.timedOut <==> id in t && now < t[id]
    ensures r.timedOut ==> r.until == Some(t[id]) && r.table == t
    ensures !r.timedOut ==> r.until.None? && r.table == t - {id}
  {
    if id in t && now < t[id] then Check(true, Some(t[id]), t)
    else Check(false, None, t - {id})
  }

  /** A timeout holds exactly before its end, whatever was stored for the
      player before. */
  lemma TimeoutHoldsUntilEnd(t: TimeoutTable, id: string, end: int, now: int)
    ensures IsTimedOut(AddTimeout(t, id, end), id, now).timedOut <==> now < end
  {
  }

  /** Once a check finds a timeout over, it is gone: no later check, at any
      instant, reports it again. Checks never touch other players. */
  lemma ExpiredTimeoutIsGone(t: TimeoutTable, id: string, now: int, later: int, other: string)
    requires !IsTimedOut(t, id, now).timedOut
    ensures !IsTimedOut(IsTimedOut(t, id, now).table, id, later).timedOut
    ensures other != id ==> (other in IsTimedOut(t, id, now).table <==> other in t)
  {
  }
}
