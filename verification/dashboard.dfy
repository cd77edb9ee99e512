/**
 The three windows fed from the poll queue: every record taken off the
 queue updates the summary, the server table and the client table, in that
 order, and an exception in any of them ends the program.
 */
module Dashboard {
  import opened Wrappers
  import opened SessionLine
  import opened StatResponse
  import Summary
  import ServerTable
  import SessionTable

  /** What the windows remember between records: the summary's slots and the client table's lists. */
  datatype Screen = Screen(slots: Summary.Slots, table: SessionTable.Table)
  {
    /** One slot and one session list for each of `n` servers. */
    predicate Sized(n: nat) {
      slots.Sized(n) && |table.lists| == n
    }

    /** The summary counts for each server exactly the sessions the client table holds for it. */
    predicate Agrees() {
      && |slots.sessionCounts| == |table.lists|
      && forall id :: 0 <= id < |table.lists| ==> slots.sessionCounts[id] == |table.lists[id]|
    }
  }

  /** The windows as `show_ui` creates them for `n` servers. */
  function Start(n: nat): (sc: Screen)
    ensures sc.Sized(n) && sc.Agrees()
  {
    Screen(Summary.Initial(n), SessionTable.Table(seq(n, _ => [])))
  }

  /** What one record puts on screen: the summary figures, the server's row and the client rows. */
  datatype Drawn = Drawn(totals: Summary.Totals, server: ServerTable.ServerRow, sessions: seq<SessionTable.SessionRow>)

  /**
   `for ui in uis: ui.update(zkserver)`: the record goes to the three
   windows in turn; `None` when one of them raises.
   */
  function Deliver(sc: Screen, rec: ServerRecord, d: SessionTable.Display, resolve: Session -> Option<string>)
    : (r: Option<(Screen, Drawn)>)
    requires sc.Sized(|sc.table.lists|) && |sc.table.lists| > 0
    ensures r.Some? <==>
      && Summary.Update(sc.slots, rec).Some?
      && ServerTable.ServerRowOf(rec).Some?
      && SessionTable.Update(sc.table, rec, d, resolve).Some?
    ensures r.Some? ==> r.value.0.Sized(|sc.table.lists|)
    ensures r.Some? ==>
      && r.value.0 == Screen(Summary.Update(sc.slots, rec).value, SessionTable.Update(sc.table, rec, d, resolve).value.0)
      && r.value.1 == Drawn(Summary.TotalsOf(r.value.0.slots), ServerTable.ServerRowOf(rec).value,
                            SessionTable.Update(sc.table, rec, d, resolve).value.1)
  {
    match Summary.Update(sc.slots, rec)
    case None => None
    case Some(slots) =>
      match ServerTable.ServerRowOf(rec)
      case None => None
      case Some(row) =>
        match SessionTable.Update(sc.table, rec, d, resolve)
        case None => None
        case Some((table, rows)) => Some((Screen(slots, table), Drawn(Summary.TotalsOf(slots), row, rows)))
  }

  /** Both windows overwrite the same server's entry with the same record, so they keep agreeing. */
  lemma DeliverAgrees(sc: Screen, rec: ServerRecord, d: SessionTable.Display, resolve: Session -> Option<string>)
    requires sc.Sized(|sc.table.lists|) && |sc.table.lists| > 0 && sc.Agrees()
    requires Deliver(sc, rec, d, resolve).Some?
    ensures Deliver(sc, rec, d, resolve).value.0.Agrees()
  {
    var sc' := Deliver(sc, rec, d, resolve).value.0;
    var id := rec.serverId;
    assert sc'.slots.At(id) == Summary.Contribution(rec).value;
    assert sc'.table.lists == sc.table.lists[id := rec.Sessions()];
    forall i | 0 <= i < |sc'.table.lists|
      ensures sc'.slots.sessionCounts[i] == |sc'.table.lists[i]|
    {
      if i != id {
        assert sc'.slots.At(i) == sc.slots.At(i);
      }
    }
  }

  /** The session total is the length of the merged list. */
  lemma {:induction false} SumLengths(counts: seq<int>, lists: seq<seq<Session>>)
    requires |counts| == |lists|
    requires forall id :: 0 <= id < |lists| ==> counts[id] == |lists[id]|
    ensures Summary.Sum(counts) == |SessionTable.Flatten(lists)|
  {
    if |lists| > 0 {
      SumLengths(counts[1..], lists[1..]);
    }
  }

  /**
   Whenever the windows agree, the session total on the summary line is the
   number of sessions the client table sorts, drawn or not.
   */
  lemma TotalIsTableSize(sc: Screen)
    requires sc.Agrees() && |sc.table.lists| > 0
    requires |sc.slots.nodeCounts| > 0 && |sc.slots.zxids| > 0
    ensures Summary.TotalsOf(sc.slots).sessions == |SessionTable.Flatten(sc.table.lists)|
  {
    SumLengths(sc.slots.sessionCounts, sc.table.lists);
  }

  /** The records taken off the queue, in order; `None` once one raises. */
  function DeliverAll(sc: Screen, recs: seq<ServerRecord>, d: SessionTable.Display, resolve: Session -> Option<string>)
    : (r: Option<Screen>)
    requires sc.Sized(|sc.table.lists|) && |sc.table.lists| > 0
    ensures r.Some? ==> r.value.Sized(|sc.table.lists|)
    decreases |recs|
  {
    if |recs| == 0 then Some(sc)
    else match Deliver(sc, recs[0], d, resolve)
      case None => None
      case Some((sc', _)) => DeliverAll(sc', recs[1..], d, resolve)
  }

  /** However many records arrive, the two windows keep agreeing on every server's sessions. */
  lemma {:induction false} DeliverAllAgrees(sc: Screen, recs: seq<ServerRecord>, d: SessionTable.Display, resolve: Session -> Option<string>)
    requires sc.Sized(|sc.table.lists|) && |sc.table.lists| > 0 && sc.Agrees()
    requires DeliverAll(sc, recs, d, resolve).Some?
    ensures DeliverAll(sc, recs, d, resolve).value.Agrees()
    decreases |recs|
  {
    if |recs| > 0 {
      DeliverAgrees(sc, recs[0], d, resolve);
      var sc' := Deliver(sc, recs[0], d, resolve).value.0;
      DeliverAllAgrees(sc', recs[1..], d, resolve);
    }
  }
}
