/** The table sink under the relay: an insert into an audit table is a delivery of the
    outbox protocol, and what the protocol conserves is in the rows themselves. */
module SinkRefinement {
  import opened Common
  import opened Intents
  import opened TableSink
  import P = OutboxProtocol

  type Rows = map<string, RowValues>

  /** The event's record, in the columns the plan wrote. */
  ghost predicate RecordOf(row: RowValues, i: AuditIntent)
  {
    REQUIRED <= row.Keys && Records(row, row.Keys, i)
  }

  /** The table holds the records of the protocol's destination and nothing else. */
  ghost predicate Holds(rows: Rows, destination: map<P.EventId, Intent>)
  {
    && rows.Keys == destination.Keys
    && forall id :: id in rows ==> RecordOf(rows[id], AuditIntent(id, destination[id]))
  }

  /** What one delivery may do to the table and report: success means the row is there,
      and a failure may have come after the insert. */
  ghost predicate Attempt(before: Rows, after: Rows, i: AuditIntent, outcome: P.SinkOutcome)
  {
    && (exists names :: DeliveredOrUntouched(before, after, names, i))
    && if outcome.Accepted? then i.eventId in after else outcome.inserted == (i.eventId in after)
  }

  /** The intent a relay offers next. */
  ghost predicate Offers(s: P.State, r: P.RelayId, i: AuditIntent)
  {
    && r in s.relays && |s.relays[r].marks| < |s.relays[r].claimed|
    && s.relays[r].claimed[|s.relays[r].marks|] == i.eventId
    && i.eventId in s.outbox && s.outbox[i.eventId].intent == i.body
  }

  /** A protocol step beside the table: only deliveries touch it. */
  ghost predicate TableStep(s: P.State, rows: Rows, e: P.Event, s': P.State, rows': Rows)
  {
    && P.Step(s, e, s')
    && if e.Deliver? then exists i :: Offers(s, e.relay, i) && Attempt(rows, rows', i, e.outcome) else rows' == rows
  }

  /** A table sink's delivery of what a relay offers is a delivery of the protocol: it is
      accepted exactly when the sink reports success, whatever faults it met. */
  method DeliverOffered(ghost s: P.State, r: P.RelayId, sink: TableSink, i: AuditIntent, probeFails: bool, fault: Fault, reason: string)
    returns (error: Option<SinkError>, outcome: P.SinkOutcome, ghost s': P.State)
    requires sink.Valid() && sink.db != null && Offers(s, r, i)
    modifies sink, sink.db
    ensures sink.Valid()
    ensures outcome.Accepted? <==> error.None?
    ensures TableStep(s, old(sink.db.rows), P.Event.Deliver(r, outcome), s', sink.db.rows)
  {
    ghost var before, names := sink.db.rows, sink.Planned(sink.db.columns);
    error := sink.Deliver(i, probeFails, fault);
    outcome := if error.None? then P.Accepted else P.Rejected(i.eventId in sink.db.rows, reason);
    s' := P.DeliverNext(s, r, outcome);
    assert DeliveredOrUntouched(before, sink.db.rows, names, i);
  }

  lemma AttemptKeepsHolds(destination: map<P.EventId, Intent>, before: Rows, after: Rows, i: AuditIntent, outcome: P.SinkOutcome)
    requires Holds(before, destination) && Attempt(before, after, i, outcome)
    ensures Holds(after, if P.Inserts(outcome) then P.Insert(destination, i.eventId, i.body) else destination)
  {
    var names :| DeliveredOrUntouched(before, after, names, i);
    if after != before {
      assert RecordOf(after[i.eventId], i);
      assert AuditIntent(i.eventId, i.body) == i;
    }
  }

  lemma TableStepKeepsHolds(s: P.State, rows: Rows, e: P.Event, s': P.State, rows': Rows)
    requires TableStep(s, rows, e, s', rows') && Holds(rows, s.destination)
    ensures Holds(rows', s'.destination)
  {
    if e.Deliver? {
      var i :| Offers(s, e.relay, i) && Attempt(rows, rows', i, e.outcome);
      AttemptKeepsHolds(s.destination, rows, rows', i, e.outcome);
    }
  }

  ghost predicate TableRun(states: seq<P.State>, tables: seq<Rows>, events: seq<P.Event>)
  {
    && |states| == |tables| == |events| + 1
    && forall k :: 0 <= k < |events| ==> TableStep(states[k], tables[k], events[k], states[k + 1], tables[k + 1])
  }

  lemma {:induction false} TableRunHolds(states: seq<P.State>, tables: seq<Rows>, events: seq<P.Event>, n: nat)
    requires TableRun(states, tables, events) && Holds(tables[0], states[0].destination) && n < |states|
    ensures Holds(tables[n], states[n].destination)
    decreases n
  {
    if n > 0 {
      TableRunHolds(states, tables, events, n - 1);
      TableStepKeepsHolds(states[n - 1], tables[n - 1], events[n - 1], states[n], tables[n]);
    }
  }

  /** Read back, the row says of every column it has what the intent said; with every
      column, it is the intent. */
  ghost predicate ReadsAs(row: RowValues, i: AuditIntent)
  {
    && ReadBack(row).eventId == i.eventId && ReadBack(row).body.action == i.body.action
    && (forall n :: n in row ==> Extract(n, ReadBack(row)) == Extract(n, i))
    && (ReadBack(row) == i <==> forall n: Column :: n !in row ==> Extract(n, i) == Success(Missing(n)))
  }

  lemma HoldsReadsAs(rows: Rows, destination: map<P.EventId, Intent>, id: string)
    requires Holds(rows, destination) && id in rows
    ensures ReadsAs(rows[id], AuditIntent(id, destination[id]))
  {
    var i := AuditIntent(id, destination[id]);
    ReadsBack(rows[id], rows[id].Keys, i);
    LosesOnlyWhatIsMissing(rows[id], rows[id].Keys, i);
  }

  /** Conservation at the table: in every run of the protocol beside the table, a
      committed intent is still pending, or there is one row under its event id that
      reads back as it; no row is of anything else; a row marked delivered is there. */
  lemma TableConservation(states: seq<P.State>, tables: seq<Rows>, events: seq<P.Event>, n: nat, id: P.EventId)
    requires TableRun(states, tables, events) && P.Initial(states[0]) && tables[0] == map[] && n < |states|
    ensures id in states[n].committed ==>
              || (id in states[n].outbox && P.IsPending(states[n].outbox[id]) && states[n].outbox[id].intent == states[n].committed[id])
              || (id in tables[n] && ReadsAs(tables[n][id], AuditIntent(id, states[n].committed[id])))
    ensures id in tables[n] ==>
              id in states[n].committed && ReadsAs(tables[n][id], AuditIntent(id, states[n].committed[id]))
    ensures id in states[n].outbox && states[n].outbox[id].deliveredAt.Some? ==> id in tables[n]
  {
    assert P.Run(states, events);
    P.Conservation(states, events, n, id);
    TableRunHolds(states, tables, events, n);
    if id in tables[n] {
      HoldsReadsAs(tables[n], states[n].destination, id);
    }
  }
}
