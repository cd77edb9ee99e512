/**
 The client table (`SessionUI`): the latest session list of every server,
 merged in server-id order, sorted by `int(queued)` largest first, and
 drawn from line 2 down until a row fails.
 */
module SessionTable {
  import opened Wrappers
  import opened Text
  import opened PyInt
  import opened SessionLine
  import opened StatResponse
  import opened StableSort

  /** The lists in order, one after another (`items.extend(l)` for each `l`). */
  function Flatten(lists: seq<seq<Session>>): (r: seq<Session>)
    ensures |lists| == 0 ==> r == []
  {
    if |lists| == 0 then [] else lists[0] + Flatten(lists[1..])
  }

  /** The session list of server `id` sits in the merged list right after those of the servers before it. */
  lemma {:induction false} FlattenSlot(lists: seq<seq<Session>>, id: nat)
    requires id < |lists|
    ensures Flatten(lists) == Flatten(lists[..id]) + lists[id] + Flatten(lists[id + 1..])
  {
    if id > 0 {
      FlattenSlot(lists[1..], id - 1);
      assert lists[1..][..id - 1] == lists[1..id];
      assert lists[..id][1..] == lists[1..id];
      assert lists[1..][id - 1 + 1..] == lists[id + 1..];
    } else {
      assert lists[..0] == [];
      assert lists[1..] == lists[id + 1..];
    }
  }

  /** `self.sessions[s.server_id] = s.sessions`; `None` (`IndexError`) for an id past the end. */
  function Replace(lists: seq<seq<Session>>, rec: ServerRecord): (r: Option<seq<seq<Session>>>)
    ensures r.Some? <==> rec.serverId < |lists|
    ensures r.Some? ==> |r.value| == |lists| && r.value[rec.serverId] == rec.Sessions()
    ensures r.Some? ==> forall id :: 0 <= id < |lists| && id != rec.serverId ==> r.value[id] == lists[id]
  {
    if rec.serverId < |lists| then Some(lists[rec.serverId := rec.Sessions()]) else None
  }

  /** `int(x.queued)`: `None` when the session has no `queued` item or it is not an integer. */
  function Queued(s: Session): (r: Option<int>)
    ensures "queued" !in s.attrs ==> r.None?
    ensures "queued" in s.attrs ==> r == ParseInt(s.attrs["queued"], 10)
  {
    if "queued" in s.attrs then ParseInt(s.attrs["queued"], 10) else None
  }

  /** `items.sort(key=lambda x: int(x.queued), reverse=True)`; `None` when a key raises. */
  function SortSessions(items: seq<Session>): (r: Option<seq<Session>>)
    ensures r.Some? <==> forall i :: 0 <= i < |items| ==> Queued(items[i]).Some?
    ensures r.Some? ==> |r.value| == |items|
  {
    match MapAll(items, Queued)
    case None => None
    case Some(keys) => Some(SortDescending(items, keys))
  }

  /**
   The sorted table holds exactly the merged sessions, largest `queued`
   first, sessions with equal `queued` in merged order.
   */
  lemma SortSessionsSpec(items: seq<Session>)
    requires SortSessions(items).Some?
    ensures var t := SortSessions(items).value;
      var keys := MapAll(items, Queued).value;
      var order := Sort(keys, |keys|);
      && multiset(t) == multiset(items)
      && (forall i :: 0 <= i < |t| ==> t[i] == items[order[i]])
      && (forall i, j :: 0 <= i < j < |t| ==> Queued(t[i]).value >= Queued(t[j]).value)
      && (forall i, j :: 0 <= i < j < |t| && Queued(t[i]) == Queued(t[j]) ==> order[i] < order[j])
  {
    var keys := MapAll(items, Queued).value;
    SortDescendingSpec(items, keys);
  }

  /** How the client table is drawn: the rows of its window and whether `-n` (reverse name lookup) is on. */
  datatype Display = Display(rows: nat, names: bool)

  /** One drawn row: client (address or resolved name, clipped to 15), port, server id, interest set and counters. */
  datatype SessionRow = SessionRow(y: nat, client: string, port: string, serverId: nat, interestOps: string,
                                   queued: string, recved: string, sent: string)

  /**
   Row `i` of the sorted table, or `None` where the body of the `try`
   raises: the name lookup fails (`resolve` stands for `getnameinfo`, which
   also needs `int(port)`), a `recved` or `sent` item is missing, or line
   `i + 2` lies outside the window.
   */
  function DrawRow(d: Display, resolve: Session -> Option<string>, s: Session, i: nat): (r: Option<SessionRow>)
    requires "queued" in s.attrs
    ensures r.Some? <==>
      && (d.names ==> ParseInt(s.port, 10).Some? && resolve(s).Some?)
      && "recved" in s.attrs && "sent" in s.attrs && i + 2 < d.rows
    ensures r.Some? ==> r.value.y == i + 2 && |r.value.client| <= 15
    ensures r.Some? ==>
      r.value == SessionRow(i + 2, PyPrefix(if d.names then resolve(s).value else s.host, 15), s.port, s.serverId,
                            s.interestOps, s.attrs["queued"], s.attrs["recved"], s.attrs["sent"])
  {
    var client := if d.names && ParseInt(s.port, 10).Some? then resolve(s) else Some(s.host);
    if (d.names && ParseInt(s.port, 10).None?) || client.None? then None
    else if "recved" !in s.attrs || "sent" !in s.attrs || i + 2 >= d.rows then None
    else Some(SessionRow(i + 2, PyPrefix(client.value, 15), s.port, s.serverId, s.interestOps,
                         s.attrs["queued"], s.attrs["recved"], s.attrs["sent"]))
  }

  /** Every session of the list carries a `queued` item. */
  predicate AllQueued(t: seq<Session>) {
    forall i :: 0 <= i < |t| ==> "queued" in t[i].attrs
  }

  /** Every session's row on its own line, or `None` where drawing it would raise. */
  function Cells(d: Display, resolve: Session -> Option<string>, t: seq<Session>): (cells: seq<Option<SessionRow>>)
    requires AllQueued(t)
    ensures |cells| == |t| && forall i :: 0 <= i < |t| ==> cells[i] == DrawRow(d, resolve, t[i], i)
  {
    seq(|t|, i requires 0 <= i < |t| => DrawRow(d, resolve, t[i], i))
  }

  /** The rows drawn from position `from` on: one per session until the first that fails (`break`). */
  function DrawFrom(d: Display, resolve: Session -> Option<string>, t: seq<Session>, from: nat): (rows: seq<SessionRow>)
    requires from <= |t| && AllQueued(t)
    ensures from + |rows| <= |t|
    ensures forall k :: 0 <= k < |rows| ==> DrawRow(d, resolve, t[from + k], from + k) == Some(rows[k])
    ensures from + |rows| < |t| ==> DrawRow(d, resolve, t[from + |rows|], from + |rows|).None?
  {
    TakeSome(Cells(d, resolve, t), from)
  }

  /** The table's state: the latest session list of each server. */
  datatype Table = Table(lists: seq<seq<Session>>)

  /**
   `SessionUI.update`: the header written on line 1, the server's list
   replaced, the merged list sorted and drawn. `None` when the header does
   not fit (a window under two lines; that write is outside the `try`), or
   when the replacement or the sort raises; a failing row only ends the
   drawing.
   */
  function Update(tb: Table, rec: ServerRecord, d: Display, resolve: Session -> Option<string>): (r: Option<(Table, seq<SessionRow>)>)
    ensures r.Some? <==>
      && 2 <= d.rows && rec.serverId < |tb.lists|
      && SortSessions(Flatten(tb.lists[rec.serverId := rec.Sessions()])).Some?
    ensures r.Some? ==> |r.value.0.lists| == |tb.lists|
  {
    if d.rows < 2 then None
    else match Replace(tb.lists, rec)
    case None => None
    case Some(lists) =>
      match SortSessions(Flatten(lists))
      case None => None
      case Some(t) =>
        SortedAllQueued(Flatten(lists));
        Some((Table(lists), DrawFrom(d, resolve, t, 0)))
  }

  /** Sessions that sort have a `queued` item. */
  lemma SortedAllQueued(items: seq<Session>)
    requires SortSessions(items).Some?
    ensures AllQueued(SortSessions(items).value)
  {
    SortSessionsSpec(items);
    var t := SortSessions(items).value;
    var keys := MapAll(items, Queued).value;
    var order := Sort(keys, |keys|);
    forall i | 0 <= i < |t|
      ensures "queued" in t[i].attrs
    {
      assert t[i] == items[order[i]];
      assert Queued(items[order[i]]).Some?;
    }
  }

  /**
   An update happens only in a window with room for the header; it replaces
   only the updating server's list, and the rows drawn are the first rows of
   the sorted merged table, up to the first that fails.
   */
  lemma UpdateSpec(tb: Table, rec: ServerRecord, d: Display, resolve: Session -> Option<string>)
    requires Update(tb, rec, d, resolve).Some?
    ensures var (tb', rows) := Update(tb, rec, d, resolve).value;
      && 2 <= d.rows
      && tb'.lists == tb.lists[rec.serverId := rec.Sessions()]
      && SortSessions(Flatten(tb'.lists)).Some?
      && |rows| <= |Flatten(tb'.lists)|
      && (forall k :: 0 <= k < |rows| ==> rows[k].y == k + 2)
    ensures var (tb', rows) := Update(tb, rec, d, resolve).value;
      var t := SortSessions(Flatten(tb'.lists)).value;
      && AllQueued(t)
      && (forall k :: 0 <= k < |rows| ==> DrawRow(d, resolve, t[k], k) == Some(rows[k]))
      && (|rows| < |t| ==> DrawRow(d, resolve, t[|rows|], |rows|).None?)
  {
    var lists := tb.lists[rec.serverId := rec.Sessions()];
    SortedAllQueued(Flatten(lists));
  }

  /**
   The merged list is the previous sessions of the servers before the
   updating one, its new sessions, then the previous sessions of the
   servers after it.
   */
  lemma ReplacedMerge(lists: seq<seq<Session>>, rec: ServerRecord)
    requires rec.serverId < |lists|
    ensures Flatten(Replace(lists, rec).value)
      == Flatten(lists[..rec.serverId]) + rec.Sessions() + Flatten(lists[rec.serverId + 1..])
  {
    var id := rec.serverId;
    var lists' := Replace(lists, rec).value;
    FlattenSlot(lists', id);
    assert lists'[..id] == lists[..id];
    assert lists'[id + 1..] == lists[id + 1..];
  }

  /** An unavailable server's sessions vanish from the table. */
  lemma UnavailableLeavesTable(lists: seq<seq<Session>>, rec: ServerRecord)
    requires rec.serverId < |lists| && rec.Unavailable?
    ensures Flatten(Replace(lists, rec).value) == Flatten(lists[..rec.serverId]) + Flatten(lists[rec.serverId + 1..])
  {
    ReplacedMerge(lists, rec);
  }
}
