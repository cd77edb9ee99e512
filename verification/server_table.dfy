/**
 The per-server table (`ServerUI`) and the text clipping every window
 applies (`BaseUI.addstr`). A row is modelled by its line and its cells;
 the `%`-format column widths are presentation and are not modelled.
 */
module ServerTable {
  import opened Wrappers
  import opened Text
  import opened StatResponse

  /** `line[:maxx - 1]`: what `addstr` writes of a line in a window `maxx` columns wide. */
  function Clip(line: string, maxx: int): (r: string)
    ensures r <= line
    ensures maxx >= 1 ==> |r| == if |line| < maxx - 1 then |line| else maxx - 1
    ensures maxx < 1 ==> |r| == if 1 - maxx < |line| then |line| - (1 - maxx) else 0
  {
    PyPrefix(line, maxx - 1)
  }

  /** A line shorter than the window is written whole; a longer one loses exactly its tail. */
  lemma ClipKeepsShort(line: string, maxx: int)
    requires |line| < maxx
    ensures Clip(line, maxx) == line
  {
  }

  /** Clipping again to the same width changes nothing. */
  lemma ClipIdempotent(line: string, maxx: int)
    requires maxx >= 1
    ensures Clip(Clip(line, maxx), maxx) == Clip(line, maxx)
  {
  }

  /** The counters an available server's row shows after its mode. */
  datatype Counters = Counters(outstanding: string, received: string, sent: string, connections: nat,
                               minLatency: string, avgLatency: string, maxLatency: string, version: string)

  /** One row of the table: its line, server id, clipped host, port and mode letter, and the counters if available. */
  datatype ServerRow = ServerRow(y: nat, serverId: nat, host: string, port: string, mode: string, counters: Option<Counters>)

  /** `s.mode[:1].upper()`. */
  function ModeLetter(mode: string): (r: string)
    ensures |r| <= 1
    ensures |mode| == 0 ==> r == ""
    ensures |mode| > 0 ==> |r| == 1 && (IsAsciiLower(mode[0]) ==> r[0] as int == mode[0] as int - 32)
    ensures |mode| > 0 && !IsAsciiLower(mode[0]) ==> r == mode[..1]
  {
    Upper(PyPrefix(mode, 1))
  }

  /**
   `ServerUI.update`: the row of server `server_id` goes on line
   `server_id + 2`; an unavailable server shows only id, host, port and `U`.
   `None` when the attribute lookups of an available server raise (no
   `mode`, `outstanding`, `received` or `sent` in its reply).
   */
  function ServerRowOf(rec: ServerRecord): (r: Option<ServerRow>)
    ensures r.Some? ==> r.value.y == rec.serverId + 2 && r.value.serverId == rec.serverId
    ensures r.Some? ==> r.value.host == PyPrefix(rec.host, 15) && r.value.port == rec.port
    ensures r.Some? ==> rec.Mode().Some? && r.value.mode == ModeLetter(rec.Mode().value)
    ensures rec.Unavailable? ==> r.Some? && r.value.mode == "U" && r.value.counters.None?
    ensures rec.Available? ==>
      (r.Some? <==> forall key :: key in ["mode", "outstanding", "received", "sent"] ==> key in rec.stat.attrs)
    ensures rec.Available? && r.Some? ==> r.value.counters.Some? && r.value.counters.value.connections == |rec.stat.sessions|
  {
    var id := rec.serverId;
    match rec
    case Unavailable(_, host, port) =>
      Some(ServerRow(id + 2, id, PyPrefix(host, 15), port, ModeLetter("Unavailable"), None))
    case Available(_, host, port, st) =>
      var a := st.attrs;
      if "mode" !in a || "outstanding" !in a || "received" !in a || "sent" !in a then None
      else
        var c := Counters(a["outstanding"], a["received"], a["sent"], |st.sessions|,
                          st.minLatency, st.avgLatency, st.maxLatency, st.version);
        Some(ServerRow(id + 2, id, PyPrefix(host, 15), port, ModeLetter(a["mode"]), Some(c)))
  }

  /**
   `curses.newwin(server_count + 2, width, 1, 0)`: line 0 lies under the main
   loop's flash message, line 1 holds the column header, one line per server
   follows.
   */
  function WindowHeight(serverCount: nat): nat {
    serverCount + 2
  }

  /**
   A server's row lies below the flash line and the header, and inside the
   window exactly when its id is one the poller numbering hands out (below
   `server_count`); rows of different servers never share a line.
   */
  lemma RowsInWindow(a: ServerRecord, b: ServerRecord, serverCount: nat)
    requires ServerRowOf(a).Some? && ServerRowOf(b).Some?
    ensures 2 <= ServerRowOf(a).value.y
    ensures ServerRowOf(a).value.y < WindowHeight(serverCount) <==> a.serverId < serverCount
    ensures ServerRowOf(a).value.y == ServerRowOf(b).value.y <==> a.serverId == b.serverId
  {
  }
}
