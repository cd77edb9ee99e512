/**
 The ensemble summary line (`SummaryUI`): one slot per server for its
 session count, node count and zxid; each polled server overwrites its own
 slot, and the line shows the largest node count, the largest zxid and the
 total number of sessions.
 */
module Summary {
  import opened Wrappers
  import opened PyInt
  import opened StatResponse

  /** The three per-server lists, indexed by server id. */
  datatype Slots = Slots(sessionCounts: seq<int>, nodeCounts: seq<int>, zxids: seq<int>)
  {
    /** All three lists have one slot for each of `n` servers. */
    predicate Sized(n: nat) {
      |sessionCounts| == n && |nodeCounts| == n && |zxids| == n
    }

    /** Server `id`'s slot in each list. */
    function At(id: nat): (int, int, int)
      requires id < |sessionCounts| && id < |nodeCounts| && id < |zxids|
    {
      (sessionCounts[id], nodeCounts[id], zxids[id])
    }
  }

  /** The lists as the constructor creates them: zero for each server. */
  function Initial(n: nat): (sl: Slots)
    ensures sl.Sized(n)
    ensures forall id :: 0 <= id < n ==> sl.At(id) == (0, 0, 0)
  {
    var zeros := seq(n, _ => 0);
    Slots(zeros, zeros, zeros)
  }

  /**
   What a server contributes: `(0, 0, 0)` when unavailable, otherwise its
   number of sessions, `int(node_count)` and `int(zxid, 16)`; `None` when a
   lookup or a conversion raises.
   */
  function Contribution(rec: ServerRecord): (r: Option<(int, int, int)>)
    ensures rec.Unavailable? ==> r == Some((0, 0, 0))
    ensures rec.Available? ==>
      (r.Some? <==> && "node_count" in rec.stat.attrs && ParseInt(rec.stat.attrs["node_count"], 10).Some?
                    && "zxid" in rec.stat.attrs && ParseInt(rec.stat.attrs["zxid"], 16).Some?)
    ensures rec.Available? && r.Some? ==>
      r.value == (|rec.stat.sessions|, ParseInt(rec.stat.attrs["node_count"], 10).value, ParseInt(rec.stat.attrs["zxid"], 16).value)
  {
    match rec
    case Unavailable(_, _, _) => Some((0, 0, 0))
    case Available(_, _, _, st) =>
      if "node_count" !in st.attrs || "zxid" !in st.attrs then None
      else match (ParseInt(st.attrs["node_count"], 10), ParseInt(st.attrs["zxid"], 16))
        case (Some(nodes), Some(zxid)) => Some((|st.sessions|, nodes, zxid))
        case _ => None
  }

  /**
   `SummaryUI.update`: the server's slot in each list is overwritten with its
   contribution; `None` when the contribution raises or the server id is
   out of range (`IndexError`).
   */
  function Update(sl: Slots, rec: ServerRecord): (r: Option<Slots>)
    requires sl.Sized(|sl.sessionCounts|)
    ensures r.Some? <==> rec.serverId < |sl.sessionCounts| && Contribution(rec).Some?
    ensures r.Some? ==> r.value.Sized(|sl.sessionCounts|)
    ensures r.Some? ==> r.value.At(rec.serverId) == Contribution(rec).value
    ensures r.Some? ==> forall id :: 0 <= id < |sl.sessionCounts| && id != rec.serverId ==> r.value.At(id) == sl.At(id)
  {
    if rec.serverId >= |sl.sessionCounts| then None
    else match Contribution(rec)
      case None => None
      case Some(c) => Some(Put(sl, rec.serverId, c))
  }

  /** Slot `id` of each list overwritten, the others kept. */
  function Put(sl: Slots, id: nat, c: (int, int, int)): (r: Slots)
    requires sl.Sized(|sl.sessionCounts|) && id < |sl.sessionCounts|
    ensures r.Sized(|sl.sessionCounts|) && r.At(id) == c
    ensures forall j :: 0 <= j < |sl.sessionCounts| && j != id ==> r.At(j) == sl.At(j)
  {
    Slots(sl.sessionCounts[id := c.0], sl.nodeCounts[id := c.1], sl.zxids[id := c.2])
  }

  /** `max(xs)`. */
  function Max(xs: seq<int>): (m: int)
    requires |xs| > 0
    ensures m in xs
    ensures forall i :: 0 <= i < |xs| ==> xs[i] <= m
  {
    if |xs| == 1 then xs[0]
    else
      var rest := Max(xs[1..]);
      assert forall i :: 1 <= i < |xs| ==> xs[i] == xs[1..][i - 1];
      if xs[0] >= rest then xs[0] else rest
  }

  /** `sum(xs)`. */
  function Sum(xs: seq<int>): int {
    if |xs| == 0 then 0 else xs[0] + Sum(xs[1..])
  }

  /** Overwriting one element changes the sum by the difference. */
  lemma {:induction false} SumOverwrite(xs: seq<int>, i: nat, v: int)
    requires i < |xs|
    ensures Sum(xs[i := v]) == Sum(xs) - xs[i] + v
  {
    if i > 0 {
      assert xs[i := v][1..] == xs[1..][i - 1 := v];
      SumOverwrite(xs[1..], i - 1, v);
    }
  }

  /** What the summary line shows: node count, zxid and number of sessions. */
  datatype Totals = Totals(nodeCount: int, zxid: int, sessions: int)

  /** `max(node_counts)`, `max(zxids)`, `sum(session_counts)`. */
  function TotalsOf(sl: Slots): Totals
    requires |sl.nodeCounts| > 0 && |sl.zxids| > 0
  {
    Totals(Max(sl.nodeCounts), Max(sl.zxids), Sum(sl.sessionCounts))
  }

  /** One update moves the session total by the change in the server's own count. */
  lemma UpdateSessions(sl: Slots, rec: ServerRecord)
    requires sl.Sized(|sl.sessionCounts|) && |sl.sessionCounts| > 0
    requires Update(sl, rec).Some?
    ensures TotalsOf(Update(sl, rec).value).sessions
      == TotalsOf(sl).sessions - sl.sessionCounts[rec.serverId] + Contribution(rec).value.0
  {
    var c := Contribution(rec).value;
    assert Update(sl, rec).value.sessionCounts == sl.sessionCounts[rec.serverId := c.0];
    SumOverwrite(sl.sessionCounts, rec.serverId, c.0);
  }

  // ---------------------------------------------------------------------
  // A run of updates

  /** The updates in order from `sl`; `None` once one raises. */
  function Run(sl: Slots, recs: seq<ServerRecord>): (r: Option<Slots>)
    requires sl.Sized(|sl.sessionCounts|)
    ensures r.Some? ==> r.value.Sized(|sl.sessionCounts|)
  {
    if |recs| == 0 then Some(sl)
    else match Run(sl, recs[..|recs| - 1])
      case None => None
      case Some(prev) => Update(prev, recs[|recs| - 1])
  }

  /** The last record of server `id` among `recs`. */
  function Latest(recs: seq<ServerRecord>, id: nat): (r: Option<ServerRecord>)
    ensures r.Some? ==> r.value in recs && r.value.serverId == id
    ensures r.None? ==> forall j :: 0 <= j < |recs| ==> recs[j].serverId != id
  {
    if |recs| == 0 then None
    else if recs[|recs| - 1].serverId == id then Some(recs[|recs| - 1])
    else Latest(recs[..|recs| - 1], id)
  }

  /** What server `id` contributes after `recs`: its latest record's contribution, zero if it has none yet. */
  function LatestContribution(recs: seq<ServerRecord>, id: nat): Option<(int, int, int)> {
    match Latest(recs, id)
    case None => Some((0, 0, 0))
    case Some(rec) => Contribution(rec)
  }

  /** After any run of updates each slot holds its server's latest contribution. */
  lemma {:induction false} RunSlots(n: nat, recs: seq<ServerRecord>)
    requires Run(Initial(n), recs).Some?
    ensures forall id :: 0 <= id < n ==> LatestContribution(recs, id) == Some(Run(Initial(n), recs).value.At(id))
  {
    if |recs| > 0 {
      var init := recs[..|recs| - 1];
      var last := recs[|recs| - 1];
      RunSlots(n, init);
      var prev := Run(Initial(n), init).value;
      forall id | 0 <= id < n
        ensures LatestContribution(recs, id) == Some(Run(Initial(n), recs).value.At(id))
      {
        if id != last.serverId {
          assert Latest(recs, id) == Latest(init, id);
        }
      }
    }
  }

  /** The column of latest contributions, one per server. */
  function LatestColumn(recs: seq<ServerRecord>, n: nat, col: nat): (xs: seq<int>)
    requires col < 3
    requires forall id :: 0 <= id < n ==> LatestContribution(recs, id).Some?
    ensures |xs| == n
  {
    seq(n, id requires 0 <= id < n =>
      var c := LatestContribution(recs, id).value;
      if col == 0 then c.0 else if col == 1 then c.1 else c.2)
  }

  /**
   After any run of updates the summary shows the largest latest node count,
   the largest latest zxid and the sum of the latest session counts, where a
   server not yet polled, or last seen unavailable, counts zero.
   */
  lemma RunTotals(n: nat, recs: seq<ServerRecord>)
    requires n > 0 && Run(Initial(n), recs).Some?
    ensures forall id :: 0 <= id < n ==> LatestContribution(recs, id).Some?
    ensures TotalsOf(Run(Initial(n), recs).value)
      == Totals(Max(LatestColumn(recs, n, 1)), Max(LatestColumn(recs, n, 2)), Sum(LatestColumn(recs, n, 0)))
  {
    RunSlots(n, recs);
    var sl := Run(Initial(n), recs).value;
    assert sl.sessionCounts == LatestColumn(recs, n, 0);
    assert sl.nodeCounts == LatestColumn(recs, n, 1);
    assert sl.zxids == LatestColumn(recs, n, 2);
  }

  /** A server last seen unavailable adds nothing to the session total and does not raise the maxima. */
  lemma UnavailableCountsZero(n: nat, recs: seq<ServerRecord>, id: nat)
    requires id < n && Run(Initial(n), recs).Some?
    requires Latest(recs, id).Some? && Latest(recs, id).value.Unavailable?
    ensures Run(Initial(n), recs).value.At(id) == (0, 0, 0)
  {
    RunSlots(n, recs);
  }

  /** An available server whose reply lacks `node_count` stops the run. */
  lemma MissingNodeCountRaises(sl: Slots, rec: ServerRecord)
    requires sl.Sized(|sl.sessionCounts|)
    requires rec.Available? && "node_count" !in rec.stat.attrs
    ensures Update(sl, rec).None?
  {
  }
}
