/** One relay draining the outbox: the claim/deliver/mark/commit batch, the cycle around
    it, the pruner, and what a cycle is guaranteed to get through. */
module Relay {
  import opened Common
  import opened Intents
  import opened Ordering
  import opened OutboxProtocol

  const DEFAULT_BATCH_SIZE := 100
  const MAX_BATCHES := 10
  const DEFAULT_PRUNE_LIMIT := 1000
  const DEFAULT_RETAIN := 604800

  datatype RelayError = NoOutbox | NoSink | IntentIncomplete | StatementFailed | CommitFailed

  /** Everything outside the relay that one batch meets: rows other replicas hold, what
      the sink does with each intent, and the faults of its own connection. */
  datatype Conditions = Conditions(locked: set<EventId>, sink: EventId -> SinkOutcome, now: int,
                                   claimFails: bool, broken: set<EventId>, commitFails: bool)

  // ---- one batch as a function of the tables -------------------------------

  datatype Batch = Batch(rows: map<EventId, Row>, records: map<EventId, Intent>,
                         claimed: nat, delivered: nat, error: Option<RelayError>)

  function MarksOf(ids: seq<EventId>, sink: EventId -> SinkOutcome): (marks: seq<Mark>)
    ensures |marks| == |ids|
    ensures forall i :: 0 <= i < |ids| ==> marks[i] == MarkOf(sink(ids[i]))
  {
    seq(|ids|, i requires 0 <= i < |ids| => MarkOf(sink(ids[i])))
  }

  function AcceptedIn(ids: seq<EventId>, sink: EventId -> SinkOutcome): nat
  {
    if |ids| == 0 then 0
    else AcceptedIn(ids[..|ids| - 1], sink) + if sink(ids[|ids| - 1]).Accepted? then 1 else 0
  }

  function RecordsAfter(records: map<EventId, Intent>, rows: map<EventId, Row>, ids: seq<EventId>,
                        sink: EventId -> SinkOutcome): map<EventId, Intent>
  {
    if |ids| == 0 then records
    else
      var before := RecordsAfter(records, rows, ids[..|ids| - 1], sink);
      var id := ids[|ids| - 1];
      if id in rows && Inserts(sink(id)) then Insert(before, id, rows[id].intent) else before
  }

  /** The intents the sink is offered: up to and including the one whose mark fails. */
  function Offered(ids: seq<EventId>, broken: set<EventId>): seq<EventId>
  {
    if |ids| == 0 then [] else if ids[0] in broken then [ids[0]] else [ids[0]] + Offered(ids[1..], broken)
  }

  predicate AnyBroken(ids: seq<EventId>, c: Conditions)
  {
    exists id :: id in ids && id in c.broken
  }

  /** DeliverBatch on values. Whatever fails, the outbox rows are as they were; what the
      sink inserted stays inserted, its connection being its own. */
  ghost function BatchOf(rows: map<EventId, Row>, records: map<EventId, Intent>, size: nat, c: Conditions): Batch
  {
    BatchWith(ClaimRows(rows, c.locked, size), rows, records, c)
  }

  ghost function BatchWith(ids: seq<EventId>, rows: map<EventId, Row>, records: map<EventId, Intent>, c: Conditions): Batch
  {
    var records' := RecordsAfter(records, rows, Offered(ids, c.broken), c.sink);
    if c.claimFails then Batch(rows, records, 0, 0, Some(StatementFailed))
    else if AnyBroken(ids, c) then Batch(rows, records', |ids|, 0, Some(StatementFailed))
    else if c.commitFails then Batch(rows, records', |ids|, 0, Some(CommitFailed))
    else Batch(ApplyMarks(rows, ids, MarksOf(ids, c.sink), c.now), records', |ids|, AcceptedIn(ids, c.sink), None)
  }

  /** RunCycle's loop on values, one condition for each batch it may try: stop on an
      error or a short batch. */
  ghost function CycleOf(rows: map<EventId, Row>, records: map<EventId, Intent>, size: nat,
                         c: seq<Conditions>): (map<EventId, Row>, map<EventId, Intent>)
    decreases |c|
  {
    if |c| == 0 then (rows, records)
    else
      var b := BatchOf(rows, records, size, c[0]);
      if b.error.Some? || b.claimed < size then (b.rows, b.records)
      else CycleOf(b.rows, b.records, size, c[1..])
  }

  /** The loop over a batch after its first i offers. */
  ghost predicate PartOf(records: map<EventId, Intent>, rows: map<EventId, Row>, ids: seq<EventId>, i: nat, c: Conditions,
                         records': map<EventId, Intent>, work: map<EventId, Row>, delivered: nat)
  {
    && i <= |ids|
    && records' == RecordsAfter(records, rows, ids[..i], c.sink)
    && work == ApplyMarks(rows, ids, MarksOf(ids, c.sink)[..i], c.now)
    && delivered == AcceptedIn(ids[..i], c.sink)
  }

  /** What offering one more intent adds. */
  lemma OneMore(records: map<EventId, Intent>, rows: map<EventId, Row>, ids: seq<EventId>, i: nat, c: Conditions,
                records': map<EventId, Intent>, work: map<EventId, Row>, delivered: nat)
    requires i < |ids| && ids[i] in rows && work.Keys == rows.Keys && PartOf(records, rows, ids, i, c, records', work, delivered)
    ensures var id, outcome := ids[i], c.sink(ids[i]);
            PartOf(records, rows, ids, i + 1, c, if Inserts(outcome) then Insert(records', id, rows[id].intent) else records',
                   work[id := Marked(work[id], MarkOf(outcome), c.now)], delivered + if outcome.Accepted? then 1 else 0)
  {
    var marks := MarksOf(ids, c.sink);
    assert ids[..i + 1][..i] == ids[..i] && marks[..i + 1][..i] == marks[..i];
  }

  lemma {:induction false} OfferedAll(ids: seq<EventId>, broken: set<EventId>)
    requires forall id :: id in ids ==> id !in broken
    ensures Offered(ids, broken) == ids
  {
    if |ids| > 0 {
      assert ids == [ids[0]] + ids[1..];
      OfferedAll(ids[1..], broken);
    }
  }

  lemma {:induction false} OfferedUpTo(ids: seq<EventId>, broken: set<EventId>, k: nat)
    requires k < |ids| && ids[k] in broken && forall i :: 0 <= i < k ==> ids[i] !in broken
    ensures Offered(ids, broken) == ids[..k + 1]
  {
    assert ids == [ids[0]] + ids[1..];
    if k > 0 {
      OfferedUpTo(ids[1..], broken, k - 1);
      assert ids[..k + 1] == [ids[0]] + ids[1..][..k];
    }
  }

  lemma BrokenAt(ids: seq<EventId>, c: Conditions, k: nat)
    requires k < |ids| && ids[k] in c.broken && forall i :: 0 <= i < k ==> ids[i] !in c.broken
    ensures AnyBroken(ids, c) && Offered(ids, c.broken) == ids[..k + 1]
  {
    OfferedUpTo(ids, c.broken, k);
  }

  lemma NoneBroken(records: map<EventId, Intent>, rows: map<EventId, Row>, ids: seq<EventId>, c: Conditions,
                   records': map<EventId, Intent>, work: map<EventId, Row>, delivered: nat)
    requires PartOf(records, rows, ids, |ids|, c, records', work, delivered)
    requires forall i :: 0 <= i < |ids| ==> ids[i] !in c.broken
    ensures !AnyBroken(ids, c) && records' == RecordsAfter(records, rows, Offered(ids, c.broken), c.sink)
    ensures work == ApplyMarks(rows, ids, MarksOf(ids, c.sink), c.now) && delivered == AcceptedIn(ids, c.sink)
  {
    var marks := MarksOf(ids, c.sink);
    assert ids[..|ids|] == ids && marks[..|ids|] == marks;
    OfferedAll(ids, c.broken);
  }

  // ---- one batch, row by row -----------------------------------------------

  /** The records a batch leaves: those that were there, and one for each offered intent
      the sink inserted, with that intent's content. */
  lemma {:induction false} RecordsAt(records: map<EventId, Intent>, rows: map<EventId, Row>, ids: seq<EventId>,
                                     sink: EventId -> SinkOutcome, id: EventId)
    requires forall x :: x in ids ==> x in rows
    ensures var after := RecordsAfter(records, rows, ids, sink);
            && (id in after <==> id in records || (id in ids && (sink(id).Accepted? || sink(id).inserted)))
            && (id in after ==> after[id] == if id in records then records[id] else rows[id].intent)
    decreases |ids|
  {
    if |ids| > 0 {
      var n := |ids| - 1;
      RecordsAt(records, rows, ids[..n], sink, id);
      assert ids == ids[..n] + [ids[n]];
    }
  }

  /** What a batch without a fault does to one row. */
  ghost predicate RowTold(row: Row, row': Row, outcome: SinkOutcome, now: int)
  {
    && row'.intent == row.intent && row'.attempts == row.attempts + 1
    && (outcome.Accepted? ==> row'.deliveredAt == Some(now) && row'.lastError == None)
    && (outcome.Rejected? ==> row'.deliveredAt == row.deliveredAt && row'.lastError == Some(outcome.reason))
  }

  /** Applying the marks tells each claimed row, and no other, what the sink said of it. */
  lemma MarksTell(rows: map<EventId, Row>, ids: seq<EventId>, sink: EventId -> SinkOutcome, now: int, id: EventId)
    requires id in rows && Distinct(ids)
    ensures var after := ApplyMarks(rows, ids, MarksOf(ids, sink), now);
            && after.Keys == rows.Keys
            && (if id in ids then RowTold(rows[id], after[id], sink(id), now) else after[id] == rows[id])
  {
    var marks := MarksOf(ids, sink);
    ApplyMarksAt(rows, ids, marks, now);
    assert ids[..|marks|] == ids;
    if id in ids {
      var i :| 0 <= i < |ids| && ids[i] == id;
      assert marks[i] == MarkOf(sink(id));
    }
  }

  /** A batch that reports success has told every claimed row, and no other, what the sink
      said of it; one that reports an error has changed none. */
  lemma BatchTells(rows: map<EventId, Row>, records: map<EventId, Intent>, size: nat, c: Conditions, id: EventId)
    requires id in rows
    ensures var ids, b := ClaimRows(rows, c.locked, size), BatchOf(rows, records, size, c);
            && b.rows.Keys == rows.Keys
            && (b.error.Some? || id !in ids ==> b.rows[id] == rows[id])
            && (b.error.None? && id in ids ==> RowTold(rows[id], b.rows[id], c.sink(id), c.now))
  {
    ClaimIsPage(rows, c.locked, size);
    MarksTell(rows, ClaimRows(rows, c.locked, size), c.sink, c.now, id);
  }

  lemma BatchRecords(rows: map<EventId, Row>, records: map<EventId, Intent>, size: nat, c: Conditions, id: EventId)
    ensures var ids, b := ClaimRows(rows, c.locked, size), BatchOf(rows, records, size, c);
            && (id in records ==> id in b.records && b.records[id] == records[id])
            && (id in b.records && id !in records ==> id in rows && b.records[id] == rows[id].intent)
            && (b.error.None? ==>
                  (id in b.records <==> id in records || (id in ids && (c.sink(id).Accepted? || c.sink(id).inserted))))
  {
    var ids := ClaimRows(rows, c.locked, size);
    ClaimIsPage(rows, c.locked, size);
    OfferedWithin(ids, c.broken);
    RecordsAt(records, rows, Offered(ids, c.broken), c.sink, id);
    if !AnyBroken(ids, c) { OfferedAll(ids, c.broken); }
  }

  /** A batch without a fault, row by row: an accepted intent is delivered, a rejected one
      stays pending with the sink's reason, each with one more attempt, and a record is
      there for exactly the intents the sink inserted. A batch with one leaves every row as
      it was. */
  ghost predicate Told(rows: map<EventId, Row>, rows': map<EventId, Row>, records: map<EventId, Intent>, records': map<EventId, Intent>,
                       ids: seq<EventId>, c: Conditions, error: Option<RelayError>)
  {
    && rows'.Keys == rows.Keys
    && (error.None? <==> !c.claimFails && !c.commitFails && forall id :: id in ids ==> id !in c.broken)
    && (forall id :: id in rows ==>
          if error.None? && id in ids then RowTold(rows[id], rows'[id], c.sink(id), c.now) else rows'[id] == rows[id])
    && (forall id :: id in records ==> id in records' && records'[id] == records[id])
    && (error.None? ==> forall id ::
          id in records' <==> id in records || (id in ids && (c.sink(id).Accepted? || c.sink(id).inserted)))
    && (forall id :: id in records' && id !in records ==> id in rows && records'[id] == rows[id].intent)
  }

  lemma BatchIsTold(rows: map<EventId, Row>, records: map<EventId, Intent>, size: nat, c: Conditions)
    ensures var b := BatchOf(rows, records, size, c);
            Told(rows, b.rows, records, b.records, ClaimRows(rows, c.locked, size), c, b.error)
  {
    var ids, b := ClaimRows(rows, c.locked, size), BatchOf(rows, records, size, c);
    forall id | id in rows
      ensures id in b.rows
      ensures if b.error.None? && id in ids then RowTold(rows[id], b.rows[id], c.sink(id), c.now) else b.rows[id] == rows[id]
    {
      BatchTells(rows, records, size, c, id);
    }
    BatchKeepsKeys(rows, records, size, c);
    forall id
      ensures id in b.records && id !in records ==> id in rows && b.records[id] == rows[id].intent
      ensures b.error.None? ==> (id in b.records <==> id in records || (id in ids && (c.sink(id).Accepted? || c.sink(id).inserted)))
      ensures id in records ==> id in b.records && b.records[id] == records[id]
    {
      BatchRecords(rows, records, size, c, id);
    }
  }

  lemma BatchKeepsKeys(rows: map<EventId, Row>, records: map<EventId, Intent>, size: nat, c: Conditions)
    ensures BatchOf(rows, records, size, c).rows.Keys == rows.Keys
  {
    var ids := ClaimRows(rows, c.locked, size);
    ClaimIsPage(rows, c.locked, size);
    ApplyMarksAt(rows, ids, MarksOf(ids, c.sink), c.now);
  }

  lemma {:induction false} OfferedWithin(ids: seq<EventId>, broken: set<EventId>)
    ensures forall x :: x in Offered(ids, broken) ==> x in ids
  {
    if |ids| > 0 { OfferedWithin(ids[1..], broken); }
  }

  // ---- the pruner's statement ----------------------------------------------

  function DeliveredBefore(rows: map<EventId, Row>, before: int): map<EventId, int>
  {
    map id | id in rows && rows[id].deliveredAt.Some? && rows[id].deliveredAt.value < before :: rows[id].deliveredAt.value
  }

  ghost predicate Oldest(rows: map<EventId, Row>, gone: set<EventId>, before: int, limit: nat)
  {
    OldestFirst(DeliveredBefore(rows, before), gone, limit)
  }

  /** The pruner takes rows delivered before its cutoff only, and all of them when they fit. */
  lemma PruneTakes(rows: map<EventId, Row>, gone: set<EventId>, before: int, limit: nat)
    requires Oldest(rows, gone, before, limit)
    ensures forall id :: id in gone ==> id in rows && rows[id].deliveredAt.Some? && rows[id].deliveredAt.value < before
    ensures |rows| <= limit ==>
              forall id :: id in rows && rows[id].deliveredAt.Some? && rows[id].deliveredAt.value < before ==> id in gone
  {
    var can := DeliveredBefore(rows, before);
    assert |can| == |can.Keys| && |rows| == |rows.Keys|;
    SubsetSize(can.Keys, rows.Keys);
    SubsetSize(gone, can.Keys);
    assert gone <= can.Keys;
    forall id | id in gone ensures id in rows && rows[id].deliveredAt.Some? && rows[id].deliveredAt.value < before {
      assert id in can;
    }
  }

  /** An intent as the caller holds it: Enqueue fills in what was left empty. */
  class IntentCell {
    var eventId: EventId
    var occurredAt: Option<int>
    var body: Intent

    constructor (eventId: EventId, occurredAt: Option<int>, body: Intent)
      ensures this.eventId == eventId && this.occurredAt == occurredAt && this.body == body
    {
      this.eventId, this.occurredAt, this.body := eventId, occurredAt, body;
    }
  }

  /** The caller's open transaction: intents written, not yet committed. */
  class MutationTx {
    var written: map<EventId, Intent>

    constructor ()
      ensures written == map[]
    {
      written := map[];
    }
  }

  class Outbox {
    var rows: map<EventId, Row>

    constructor ()
      ensures rows == map[]
    {
      rows := map[];
    }

    /** Writes the intent into the caller's transaction, never into the table: it is
        committed with the mutation or not at all. A nil transaction, a nil intent, an
        empty action or detail that cannot be encoded is refused before anything is
        written. */
    method Enqueue(tx: MutationTx?, intent: IntentCell?, minted: EventId, now: int, insertFails: bool)
      returns (error: Option<RelayError>)
      requires minted != ""
      modifies tx, intent
      ensures error == if tx == null then Some(NoOutbox)
                       else if intent == null || old(intent.body.action) == "" || old(intent.body.metadata).Unencodable?
                            then Some(IntentIncomplete)
                       else if insertFails || intent.eventId in old(tx.written) then Some(StatementFailed)
                       else None
      ensures tx != null && error.Some? ==> tx.written == old(tx.written)
      ensures error.None? ==> tx.written == old(tx.written)[intent.eventId := intent.body]
      ensures error.None? ==> intent.eventId != "" && intent.occurredAt == Some(intent.body.occurredAt)
      ensures error.None? && old(intent.eventId) != "" ==> intent.eventId == old(intent.eventId)
      ensures error.None? && old(intent.eventId) == "" ==> intent.eventId == minted
      ensures error.None? ==> intent.body == old(intent.body).(occurredAt := old(intent.occurredAt).GetOr(now))
    {
      if tx == null { return Some(NoOutbox); }
      if intent == null { return Some(IntentIncomplete); }
      if intent.body.action == "" { return Some(IntentIncomplete); }
      if intent.eventId == "" { intent.eventId := minted; }
      if intent.occurredAt.None? { intent.occurredAt := Some(now); }
      intent.body := intent.body.(occurredAt := intent.occurredAt.value);
      if intent.body.metadata.Unencodable? { return Some(IntentIncomplete); }
      if insertFails || intent.eventId in tx.written { return Some(StatementFailed); }
      tx.written := tx.written[intent.eventId := intent.body];
      error := None;
    }

    /** The oldest pending rows nobody else holds, in order. */
    method Claim(locked: set<EventId>, limit: nat) returns (ids: seq<EventId>)
      ensures ids == ClaimRows(rows, locked, limit)
      ensures forall i :: 0 <= i < |ids| ==> ids[i] in rows
    {
      var page := TakeFirst(Stamps(rows, Pending(rows) - locked), limit);
      ids := StampIds(page);
      ClaimIsPage(rows, locked, limit);
      assert forall i :: 0 <= i < |ids| ==> ids[i] in ids;
    }

    /** Deletes only delivered rows older than the cutoff, the oldest first, at most
        limit of them, and counts them; a limit of zero or less means the default. */
    method PruneDelivered(before: int, limit: int) returns (pruned: nat, ghost gone: set<EventId>)
      modifies this
      ensures Oldest(old(rows), gone, before, if limit <= 0 then 1000 else limit)
      ensures rows == old(rows) - gone && pruned == |gone|
    {
      var taken := TakeOldest(DeliveredBefore(rows, before), if limit <= 0 then DEFAULT_PRUNE_LIMIT else limit);
      rows := rows - taken;
      pruned, gone := |taken|, taken;
    }
  }

  /** The destination, on a connection of its own. */
  class Destination {
    var records: map<EventId, Intent>

    constructor ()
      ensures records == map[]
    {
      records := map[];
    }

    /** INSERT ... ON CONFLICT (id) DO NOTHING, when it gets that far. */
    method Accept(id: EventId, intent: Intent, outcome: SinkOutcome)
      modifies this
      ensures records == if Inserts(outcome) then Insert(old(records), id, intent) else old(records)
    {
      if Inserts(outcome) && id !in records {
        records := records[id := intent];
      }
    }
  }

  class Relay {
    const outbox: Outbox?
    const sink: Destination?
    const batchSize: int
    const retain: int

    constructor (outbox: Outbox?, sink: Destination?, batchSize: int, retain: int)
      ensures this.outbox == outbox && this.sink == sink && this.batchSize == batchSize && this.retain == retain
    {
      this.outbox, this.sink, this.batchSize, this.retain := outbox, sink, batchSize, retain;
    }

    function Size(): (n: nat)
      ensures n > 0
    {
      if batchSize <= 0 then DEFAULT_BATCH_SIZE else batchSize
    }

    function Retention(): int
    {
      if retain == 0 then DEFAULT_RETAIN else retain
    }

    /** Offers each claimed intent to the sink and buffers its mark. A rejected intent
        does not stop the batch; a mark that cannot be written does. */
    method DeliverAll(intents: seq<EventId>, c: Conditions)
      returns (work: map<EventId, Row>, delivered: nat, stopped: bool)
      requires outbox != null && sink != null && forall i :: 0 <= i < |intents| ==> intents[i] in outbox.rows
      modifies sink
      ensures stopped <==> AnyBroken(intents, c)
      ensures sink.records == RecordsAfter(old(sink.records), outbox.rows, Offered(intents, c.broken), c.sink)
      ensures !stopped ==> work == ApplyMarks(outbox.rows, intents, MarksOf(intents, c.sink), c.now)
      ensures !stopped ==> delivered == AcceptedIn(intents, c.sink)
    {
      var rows := outbox.rows;
      ghost var records := sink.records;
      work, delivered := rows, 0;
      var i := 0;
      while i < |intents|
        invariant 0 <= i <= |intents| && work.Keys == rows.Keys
        invariant forall j :: 0 <= j < i ==> intents[j] !in c.broken
        invariant PartOf(records, rows, intents, i, c, sink.records, work, delivered)
      {
        var id := intents[i];
        var outcome := c.sink(id);
        OneMore(records, rows, intents, i, c, sink.records, work, delivered);
        sink.Accept(id, rows[id].intent, outcome);
        if id in c.broken {
          BrokenAt(intents, c, i);
          return work, delivered, true;
        }
        work := work[id := Marked(work[id], MarkOf(outcome), c.now)];
        if outcome.Accepted? { delivered := delivered + 1; }
        i := i + 1;
      }
      NoneBroken(records, rows, intents, c, sink.records, work, delivered);
      stopped := false;
    }

    /** One claim/deliver/commit cycle. Marks are buffered in the claiming transaction;
        records go straight to the destination. */
    method DeliverBatch(c: Conditions) returns (claimed: nat, delivered: nat, error: Option<RelayError>)
      modifies outbox, sink
      ensures outbox == null ==> (claimed, delivered, error) == (0, 0, Some(NoOutbox))
      ensures outbox != null && sink == null ==> (claimed, delivered, error) == (0, 0, Some(NoSink)) && outbox.rows == old(outbox.rows)
      ensures outbox != null && sink != null ==>
                Batch(outbox.rows, sink.records, claimed, delivered, error) ==
                BatchOf(old(outbox.rows), old(sink.records), Size(), c)
      ensures outbox != null && sink != null ==>
                Told(old(outbox.rows), outbox.rows, old(sink.records), sink.records, ClaimRows(old(outbox.rows), c.locked, Size()), c, error)
    {
      if outbox == null { return 0, 0, Some(NoOutbox); }
      if sink == null { return 0, 0, Some(NoSink); }
      BatchIsTold(outbox.rows, sink.records, Size(), c);
      if c.claimFails { return 0, 0, Some(StatementFailed); }
      var intents := outbox.Claim(c.locked, Size());
      var work, count, stopped := DeliverAll(intents, c);
      if stopped { return |intents|, 0, Some(StatementFailed); }
      if c.commitFails { return |intents|, 0, Some(CommitFailed); }
      outbox.rows := work;
      return |intents|, count, None;
    }

    method RunBatches(c: seq<Conditions>)
      requires outbox != null && sink != null && |c| == MAX_BATCHES
      modifies outbox, sink
      ensures (outbox.rows, sink.records) == CycleOf(old(outbox.rows), old(sink.records), Size(), c)
    {
      ghost var goal := CycleOf(outbox.rows, sink.records, Size(), c);
      var i := 0;
      while i < MAX_BATCHES
        invariant 0 <= i <= MAX_BATCHES
        invariant CycleOf(outbox.rows, sink.records, Size(), c[i..]) == goal
      {
        assert c[i..][0] == c[i] && c[i..][1..] == c[i + 1..];
        var claimed, delivered, error := DeliverBatch(c[i]);
        if error.Some? || claimed < Size() { return; }
        i := i + 1;
      }
    }

    /** Up to ten batches, stopping on an error or a short one; then the pruner. */
    method RunCycle(c: seq<Conditions>, now: int, pruneFails: bool) returns (ghost gone: set<EventId>)
      requires outbox != null && sink != null && |c| == MAX_BATCHES
      modifies outbox, sink
      ensures sink.records == CycleOf(old(outbox.rows), old(sink.records), Size(), c).1
      ensures outbox.rows == CycleOf(old(outbox.rows), old(sink.records), Size(), c).0 - gone
      ensures pruneFails || retain < 0 ==> gone == {}
      ensures !pruneFails && retain >= 0 ==>
                Oldest(CycleOf(old(outbox.rows), old(sink.records), Size(), c).0, gone, now - Retention(), Size() * MAX_BATCHES)
    {
      RunBatches(c);
      gone := Prune(now, pruneFails);
    }

    /** Disabled by a negative retention; a failed prune is only logged. */
    method Prune(now: int, fails: bool) returns (ghost gone: set<EventId>)
      requires outbox != null
      modifies outbox
      ensures outbox.rows == old(outbox.rows) - gone
      ensures fails || retain < 0 ==> gone == {}
      ensures !fails && retain >= 0 ==> Oldest(old(outbox.rows), gone, now - Retention(), Size() * MAX_BATCHES)
      // Pending rows stay, and so do delivered ones for as long as they are retained: seven
      // days unless the configuration says otherwise. Past that a batch of the oldest goes.
      ensures forall id :: id in old(outbox.rows) && id !in outbox.rows ==>
                && old(outbox.rows)[id].deliveredAt.Some?
                && now - old(outbox.rows)[id].deliveredAt.value > if retain == 0 then 7 * 24 * 3600 else retain
      ensures !fails && retain >= 0 && |old(outbox.rows)| <= 10 * (if batchSize <= 0 then 100 else batchSize) ==>
                forall id :: id in outbox.rows && outbox.rows[id].deliveredAt.Some? ==>
                  now - outbox.rows[id].deliveredAt.value <= if retain == 0 then 7 * 24 * 3600 else retain
    {
      gone := {};
      if retain >= 0 && !fails {
        ghost var rows := outbox.rows;
        var pruned;
        pruned, gone := outbox.PruneDelivered(now - Retention(), Size() * MAX_BATCHES);
        PruneTakes(rows, gone, now - Retention(), Size() * MAX_BATCHES);
      } else {
        assert outbox.rows == outbox.rows - {};
      }
    }
  }
}
