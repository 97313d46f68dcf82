/** What the relay guarantees: each batch is a run of the outbox protocol, and batches
    drain everything deliverable exactly when the head of the queue is not blocked. */
module RelayProgress {
  import opened Common
  import opened Intents
  import opened Ordering
  import opened OutboxProtocol
  import opened Relay

  // ---- every batch is a run of the protocol --------------------------------

  /** The protocol state after the first k offers of relay r's batch. */
  function MidState(s: State, r: RelayId, ids: seq<EventId>, sink: EventId -> SinkOutcome, k: nat): State
    requires k <= |ids|
  {
    s.(destination := RecordsAfter(s.destination, s.outbox, ids[..k], sink),
       relays := s.relays[r := RelayTx(ids, MarksOf(ids[..k], sink))])
  }

  lemma OfferIsDeliver(s: State, r: RelayId, ids: seq<EventId>, sink: EventId -> SinkOutcome, k: nat)
    requires k < |ids| && ids[k] in s.outbox
    ensures Step(MidState(s, r, ids, sink, k), Deliver(r, sink(ids[k])), MidState(s, r, ids, sink, k + 1))
  {
    assert ids[..k + 1][..k] == ids[..k];
    assert MarksOf(ids[..k + 1], sink) == MarksOf(ids[..k], sink) + [MarkOf(sink(ids[k]))];
    var mid := MidState(s, r, ids, sink, k);
    assert mid.relays[r := RelayTx(ids, MarksOf(ids[..k + 1], sink))] == MidState(s, r, ids, sink, k + 1).relays;
  }

  lemma {:induction false} OfferedIsPrefix(ids: seq<EventId>, broken: set<EventId>)
    ensures |Offered(ids, broken)| <= |ids| && Offered(ids, broken) == ids[..|Offered(ids, broken)|]
    decreases |ids|
  {
    if |ids| > 0 && ids[0] !in broken {
      OfferedIsPrefix(ids[1..], broken);
    }
  }

  ghost function OfferEvents(r: RelayId, ids: seq<EventId>, sink: EventId -> SinkOutcome, k: nat): (events: seq<Event>)
    requires k <= |ids|
    ensures |events| == k && forall i :: 0 <= i < k ==> events[i] == Deliver(r, sink(ids[i]))
  {
    seq(k, i requires 0 <= i < k => Deliver(r, sink(ids[i])))
  }

  ghost function OfferStates(s: State, r: RelayId, ids: seq<EventId>, sink: EventId -> SinkOutcome, k: nat): (states: seq<State>)
    requires k <= |ids|
    ensures |states| == k + 1 && forall i :: 0 <= i <= k ==> states[i] == MidState(s, r, ids, sink, i)
  {
    seq(k + 1, i requires 0 <= i <= k => MidState(s, r, ids, sink, i))
  }

  ghost function BatchStates(s: State, r: RelayId, ids: seq<EventId>, sink: EventId -> SinkOutcome, k: nat, end: State): (states: seq<State>)
    requires k <= |ids|
    ensures |states| == k + 3 && states[0] == s && states[k + 2] == end
    ensures forall i :: 0 <= i <= k ==> states[i + 1] == MidState(s, r, ids, sink, i)
  {
    [s] + OfferStates(s, r, ids, sink, k) + [end]
  }

  ghost function BatchEvents(r: RelayId, ids: seq<EventId>, sink: EventId -> SinkOutcome, k: nat, first: Event, last: Event): (events: seq<Event>)
    requires k <= |ids|
    ensures |events| == k + 2 && events[0] == first && events[k + 1] == last
    ensures forall i :: 0 <= i < k ==> events[i + 1] == Deliver(r, sink(ids[i]))
  {
    [first] + OfferEvents(r, ids, sink, k) + [last]
  }

  /** The i-th transition of a batch: the claim, an offer, or the end. */
  lemma BatchStep(s: State, r: RelayId, ids: seq<EventId>, sink: EventId -> SinkOutcome, k: nat,
                  first: Event, last: Event, end: State, i: nat, from: State, e: Event, to: State)
    requires k <= |ids| && (forall j :: 0 <= j < |ids| ==> ids[j] in s.outbox) && i < k + 2
    requires Step(s, first, MidState(s, r, ids, sink, 0)) && Step(MidState(s, r, ids, sink, k), last, end)
    requires from == if i == 0 then s else MidState(s, r, ids, sink, i - 1)
    requires to == if i == k + 1 then end else MidState(s, r, ids, sink, i)
    requires e == if i == 0 then first else if i == k + 1 then last else Deliver(r, sink(ids[i - 1]))
    ensures Step(from, e, to)
  {
    if 0 < i <= k {
      OfferIsDeliver(s, r, ids, sink, i - 1);
    }
  }

  /** Claim, k offers, then the commit or the rollback. */
  lemma OffersAreARun(s: State, r: RelayId, ids: seq<EventId>, sink: EventId -> SinkOutcome, k: nat,
                      first: Event, last: Event, end: State)
    requires k <= |ids| && forall i :: 0 <= i < |ids| ==> ids[i] in s.outbox
    requires Step(s, first, MidState(s, r, ids, sink, 0)) && Step(MidState(s, r, ids, sink, k), last, end)
    ensures exists states, events :: Run(states, events) && states[0] == s && states[|events|] == end
  {
    var states, events := BatchStates(s, r, ids, sink, k, end), BatchEvents(r, ids, sink, k, first, last);
    forall i | 0 <= i < |events| ensures Step(states[i], events[i], states[i + 1]) {
      BatchStep(s, r, ids, sink, k, first, last, end, i, states[i], events[i], states[i + 1]);
    }
    assert Run(states, events);
  }

  lemma ClaimOpens(s: State, r: RelayId, size: nat, sink: EventId -> SinkOutcome)
    requires r !in s.relays
    ensures var ids := ClaimRows(s.outbox, LockedBy(s.relays), size);
            && Step(s, Claim(r, size), MidState(s, r, ids, sink, 0))
            && (forall i :: 0 <= i < |ids| ==> ids[i] in s.outbox)
  {
    var ids := ClaimRows(s.outbox, LockedBy(s.relays), size);
    ClaimIsPage(s.outbox, LockedBy(s.relays), size);
    assert ids[..0] == [];
    assert MidState(s, r, ids, sink, 0) == s.(relays := s.relays[r := RelayTx(ids, [])]);
    assert forall i :: 0 <= i < |ids| ==> ids[i] in ids;
  }

  /** Whatever faults a batch meets, its effect on the two stores is a run of the
      protocol, so everything proved of runs holds of the relay's code. */
  lemma BatchRefinesProtocol(s: State, r: RelayId, size: nat, c: Conditions)
    requires r !in s.relays && c.locked == LockedBy(s.relays)
    ensures var b := BatchOf(s.outbox, s.destination, size, c);
            exists states, events ::
              Run(states, events) && states[0] == s &&
              states[|events|] == s.(outbox := b.rows, destination := b.records)
  {
    var b := BatchOf(s.outbox, s.destination, size, c);
    var end := s.(outbox := b.rows, destination := b.records);
    var ids := ClaimRows(s.outbox, c.locked, size);
    if c.claimFails {
      var events: seq<Event> := [];
      assert Run([s], events) && [s][|events|] == end;
    } else {
      OfferedIsPrefix(ids, c.broken);
      var k := |Offered(ids, c.broken)|;
      var mid := MidState(s, r, ids, c.sink, k);
      ClaimOpens(s, r, size, c.sink);
      assert mid.relays - {r} == s.relays;
      if b.error.Some? {
        assert end == mid.(relays := mid.relays - {r});
        OffersAreARun(s, r, ids, c.sink, k, Claim(r, size), RelayAbort(r), end);
      } else {
        OfferedAll(ids, c.broken);
        assert ids[..k] == ids;
        assert Step(mid, RelayCommit(r, c.now), end);
        OffersAreARun(s, r, ids, c.sink, k, Claim(r, size), RelayCommit(r, c.now), end);
      }
    }
  }

  /** The pruner's deletion is a protocol step too: it reaches delivered rows only. */
  lemma PruneRefinesProtocol(s: State, gone: set<EventId>, before: int, limit: nat)
    requires Oldest(s.outbox, gone, before, limit)
    ensures Step(s, Prune(gone), s.(outbox := s.outbox - gone))
    ensures Pending(s.outbox - gone) == Pending(s.outbox)
  {
    forall id | id in gone ensures id in s.outbox && !IsPending(s.outbox[id]) {
      assert id in DeliveredBefore(s.outbox, before);
    }
  }

  // ---- progress ------------------------------------------------------------

  /** Nothing fails but the delivery of the intents in bad, and no replica holds a row. */
  ghost predicate Quiet(c: Conditions, bad: set<EventId>)
  {
    && c.locked == {} && !c.claimFails && c.broken == {} && !c.commitFails
    && forall id :: c.sink(id).Accepted? <==> id !in bad
  }

  function Stuck(rows: map<EventId, Row>, bad: set<EventId>): set<EventId>
  {
    Pending(rows) * bad
  }

  function Movable(rows: map<EventId, Row>, bad: set<EventId>): set<EventId>
  {
    Pending(rows) - bad
  }

  function SetOf(ids: seq<EventId>): set<EventId>
  {
    set id | id in ids
  }

  function StampOf(rows: map<EventId, Row>, id: EventId): Stamp
    requires id in rows
  {
    Stamp(rows[id].intent.occurredAt, id)
  }

  ghost predicate SameIntents(rows: map<EventId, Row>, rows': map<EventId, Row>)
  {
    rows'.Keys == rows.Keys && forall id :: id in rows ==> rows'[id].intent == rows[id].intent
  }

  lemma {:induction false} SetOfSize(ids: seq<EventId>)
    requires Distinct(ids)
    ensures |SetOf(ids)| == |ids|
    decreases |ids|
  {
    if |ids| > 0 {
      var n := |ids| - 1;
      SetOfSize(ids[..n]);
      assert ids == ids[..n] + [ids[n]];
      assert SetOf(ids) == SetOf(ids[..n]) + {ids[n]};
      assert ids[n] !in SetOf(ids[..n]);
    }
  }

  lemma {:induction false} AcceptedSize(ids: seq<EventId>, sink: EventId -> SinkOutcome, bad: set<EventId>)
    requires Distinct(ids) && forall id :: sink(id).Accepted? <==> id !in bad
    ensures AcceptedIn(ids, sink) == |SetOf(ids) - bad|
    decreases |ids|
  {
    if |ids| > 0 {
      var n := |ids| - 1;
      AcceptedSize(ids[..n], sink, bad);
      assert ids == ids[..n] + [ids[n]];
      var rest := SetOf(ids[..n]) - bad;
      assert ids[n] !in SetOf(ids[..n]);
      assert SetOf(ids) - bad == if ids[n] in bad then rest else rest + {ids[n]};
    }
  }

  /** What the marks of a quiet batch do to one row. */
  lemma QuietRow(rows: map<EventId, Row>, ids: seq<EventId>, c: Conditions, bad: set<EventId>, id: EventId)
    requires Quiet(c, bad) && Distinct(ids) && id in rows && forall x :: x in ids ==> x in Pending(rows)
    ensures var after := ApplyMarks(rows, ids, MarksOf(ids, c.sink), c.now);
            && after.Keys == rows.Keys
            && after[id].intent == rows[id].intent
            && (IsPending(after[id]) <==> IsPending(rows[id]) && !(id in ids && id !in bad))
  {
    var marks := MarksOf(ids, c.sink);
    ApplyMarksAt(rows, ids, marks, c.now);
    assert ids[..|marks|] == ids;
    if id in ids {
      var i :| 0 <= i < |ids| && ids[i] == id;
      assert marks[i] == MarkOf(c.sink(ids[i]));
    }
  }

  lemma QuietMarks(rows: map<EventId, Row>, ids: seq<EventId>, c: Conditions, bad: set<EventId>)
    requires Quiet(c, bad) && Distinct(ids) && forall x :: x in ids ==> x in Pending(rows)
    ensures var after := ApplyMarks(rows, ids, MarksOf(ids, c.sink), c.now);
            Pending(after) == Pending(rows) - (SetOf(ids) - bad) && SameIntents(rows, after)
  {
    ApplyMarksAt(rows, ids, MarksOf(ids, c.sink), c.now);
    forall id | id in rows
      ensures var after := ApplyMarks(rows, ids, MarksOf(ids, c.sink), c.now);
              after[id].intent == rows[id].intent && (IsPending(after[id]) <==> IsPending(rows[id]) && !(id in ids && id !in bad))
    {
      QuietRow(rows, ids, c, bad, id);
    }
  }

  /** A quiet batch takes exactly the deliverable part of its page out of the queue. */
  lemma QuietBatch(rows: map<EventId, Row>, records: map<EventId, Intent>, size: nat, c: Conditions, bad: set<EventId>)
    requires Quiet(c, bad)
    ensures var ids, b := ClaimRows(rows, {}, size), BatchOf(rows, records, size, c);
            && b.error.None? && b.claimed == |ids| && Distinct(ids)
            && b.delivered == |SetOf(ids) - bad|
            && Pending(b.rows) == Pending(rows) - (SetOf(ids) - bad)
            && SameIntents(rows, b.rows)
  {
    var ids := ClaimRows(rows, {}, size);
    ClaimIsPage(rows, {}, size);
    assert forall x :: x in ids ==> x in Pending(rows) - {};
    AcceptedSize(ids, c.sink, bad);
    QuietMarks(rows, ids, c, bad);
  }

  /** The first size pending rows are all undeliverable: size of them come before
      every deliverable one. */
  ghost predicate HeadBlocked(rows: map<EventId, Row>, bad: set<EventId>, size: nat)
  {
    exists front: set<EventId> :: Blocks(rows, bad, size, front)
  }

  ghost predicate Blocks(rows: map<EventId, Row>, bad: set<EventId>, size: nat, front: set<EventId>)
  {
    && front <= Stuck(rows, bad) && |front| == size
    && forall x, y :: x in front && y in Movable(rows, bad) ==> StampBefore(StampOf(rows, x), StampOf(rows, y))
  }

  /** A batch delivers nothing exactly when nothing is deliverable or the head of the
      queue is blocked by a whole batch of undeliverable intents. */
  lemma DeliversNothingIffBlocked(rows: map<EventId, Row>, records: map<EventId, Intent>, size: nat, c: Conditions, bad: set<EventId>)
    requires Quiet(c, bad)
    ensures BatchOf(rows, records, size, c).delivered == 0 <==>
              Movable(rows, bad) == {} || HeadBlocked(rows, bad, size)
  {
    var ids := ClaimRows(rows, {}, size);
    QuietBatch(rows, records, size, c, bad);
    ClaimIsPage(rows, {}, size);
    SetOfSize(ids);
    assert Pending(rows) - {} == Pending(rows);
    if SetOf(ids) - bad == {} && Movable(rows, bad) != {} {
      BlockedHere(rows, size, bad);
    }
    if Movable(rows, bad) == {} {
      assert SetOf(ids) - bad <= Movable(rows, bad);
    } else if HeadBlocked(rows, bad, size) {
      var front :| Blocks(rows, bad, size, front);
      BlockedClaimsNone(rows, size, bad, front);
    }
  }

  /** A page with nothing deliverable on it, while something is, is a blocking front. */
  lemma BlockedHere(rows: map<EventId, Row>, size: nat, bad: set<EventId>)
    requires var ids := ClaimRows(rows, {}, size);
             SetOf(ids) - bad == {} && Movable(rows, bad) != {}
    ensures Blocks(rows, bad, size, SetOf(ClaimRows(rows, {}, size)))
  {
    var ids := ClaimRows(rows, {}, size);
    ClaimIsPage(rows, {}, size);
    SetOfSize(ids);
    assert Pending(rows) - {} == Pending(rows);
    var y :| y in Movable(rows, bad);
    assert y !in SetOf(ids);
    assert forall id :: id in SetOf(ids) ==> id in ids;
    if |ids| < size {
      SubsetSize(SetOf(ids), Pending(rows));
      assert false;
    }
    forall x, z | x in SetOf(ids) && z in Movable(rows, bad) ensures StampBefore(StampOf(rows, x), StampOf(rows, z)) {
      assert z !in SetOf(ids);
    }
  }

  lemma BlockedClaimsNone(rows: map<EventId, Row>, size: nat, bad: set<EventId>, front: set<EventId>)
    requires Blocks(rows, bad, size, front)
    ensures SetOf(ClaimRows(rows, {}, size)) - bad == {}
  {
    var ids := ClaimRows(rows, {}, size);
    ClaimIsPage(rows, {}, size);
    SetOfSize(ids);
    assert Pending(rows) - {} == Pending(rows);
    if y :| y in SetOf(ids) - bad {
      assert y in Movable(rows, bad);
      forall x | x in front ensures x in SetOf(ids) {
        StampOrder();
        assert StampBefore(StampOf(rows, x), StampOf(rows, y));
      }
      SubsetSize(front + {y}, SetOf(ids));
      assert false;
    }
  }

  lemma FewStuckNotBlocked(rows: map<EventId, Row>, bad: set<EventId>, size: nat)
    requires |Stuck(rows, bad)| < size
    ensures !HeadBlocked(rows, bad, size)
  {
    forall front ensures !Blocks(rows, bad, size, front) {
      if front <= Stuck(rows, bad) { SubsetSize(front, Stuck(rows, bad)); }
    }
  }

  /** The arithmetic of one page leaving the queue. */
  lemma PageLeaves(queue: set<EventId>, page: set<EventId>, bad: set<EventId>, after: set<EventId>)
    requires page <= queue && after == queue - (page - bad)
    ensures after * bad == queue * bad && after - bad <= queue - bad
    ensures |page - bad| == |queue - bad| - |after - bad|
    ensures |page - bad| >= |page| - |queue * bad|
    ensures |page| == |queue| ==> after - bad == {}
  {
    assert after - bad == (queue - bad) - (page - bad);
    SubsetSize(page - bad, queue - bad);
    SubsetSize(page * bad, queue * bad);
    SubsetSize(page * bad, page);
    assert page - bad == page - page * bad;
    SubsetSize(page, queue);
  }

  /** Fewer undeliverable intents than a batch holds: every batch delivers while anything
      is deliverable, and a full one delivers at least the difference. */
  lemma BatchMakesProgress(rows: map<EventId, Row>, records: map<EventId, Intent>, size: nat, c: Conditions, bad: set<EventId>)
    requires Quiet(c, bad) && |Stuck(rows, bad)| < size
    ensures var b := BatchOf(rows, records, size, c);
            && b.error.None?
            && Stuck(b.rows, bad) == Stuck(rows, bad)
            && Movable(b.rows, bad) <= Movable(rows, bad)
            && b.delivered == |Movable(rows, bad)| - |Movable(b.rows, bad)|
            && (Movable(rows, bad) != {} ==> b.delivered > 0)
            && (b.claimed >= size ==> b.delivered >= size - |Stuck(rows, bad)|)
            && (b.claimed < size ==> Movable(b.rows, bad) == {})
  {
    var ids, b := ClaimRows(rows, {}, size), BatchOf(rows, records, size, c);
    QuietBatch(rows, records, size, c, bad);
    PageFits(rows, size);
    PageLeaves(Pending(rows), SetOf(ids), bad, Pending(b.rows));
    DeliversNothingIffBlocked(rows, records, size, c, bad);
    FewStuckNotBlocked(rows, bad, size);
  }

  lemma PageFits(rows: map<EventId, Row>, size: nat)
    ensures var ids := ClaimRows(rows, {}, size);
            && SetOf(ids) <= Pending(rows) && |SetOf(ids)| == |ids|
            && (|ids| < size ==> |ids| == |Pending(rows)|)
  {
    ClaimIsPage(rows, {}, size);
    SetOfSize(ClaimRows(rows, {}, size));
    assert Pending(rows) - {} == Pending(rows);
  }

  /** The queue has drained, or at least so many deliverable intents have left it. */
  ghost predicate Progressed(queue: set<EventId>, queue': set<EventId>, bad: set<EventId>, total: int)
  {
    && queue' * bad == queue * bad && queue' - bad <= queue - bad
    && (queue' - bad == {} || |queue' - bad| + total <= |queue - bad|)
  }

  lemma ProgressAdds(a: set<EventId>, b: set<EventId>, c: set<EventId>, bad: set<EventId>, m: int, n: int)
    requires Progressed(a, b, bad, m) && Progressed(b, c, bad, n)
    ensures Progressed(a, c, bad, m + n)
  {
  }

  /** The same of two tables. */
  ghost predicate Moved(rows: map<EventId, Row>, rows': map<EventId, Row>, bad: set<EventId>, total: int)
  {
    Progressed(Pending(rows), Pending(rows'), bad, total)
  }

  lemma MovedAdds(a: map<EventId, Row>, b: map<EventId, Row>, c: map<EventId, Row>, bad: set<EventId>, m: int, n: int, total: int)
    requires Moved(a, b, bad, m) && Moved(b, c, bad, n) && total == m + n
    ensures Moved(a, c, bad, total)
  {
    ProgressAdds(Pending(a), Pending(b), Pending(c), bad, m, n);
  }

  lemma BatchMoves(rows: map<EventId, Row>, records: map<EventId, Intent>, size: nat, c: Conditions, bad: set<EventId>, quantum: int, any: int)
    requires Quiet(c, bad) && |Stuck(rows, bad)| < size && quantum == size - |Stuck(rows, bad)|
    ensures var b := BatchOf(rows, records, size, c);
            && b.error.None? && Stuck(b.rows, bad) == Stuck(rows, bad)
            && (if b.claimed < size then Moved(rows, b.rows, bad, any) else Moved(rows, b.rows, bad, quantum))
  {
    BatchMakesProgress(rows, records, size, c, bad);
  }

  /** n quanta, counted up. */
  function Quanta(n: nat, quantum: int): int
  {
    if n == 0 then 0 else quantum + Quanta(n - 1, quantum)
  }

  lemma {:induction false} QuantaTimes(n: nat, quantum: int)
    ensures Quanta(n, quantum) == n * quantum
  {
    if n > 0 {
      QuantaTimes(n - 1, quantum);
      assert n * quantum == (n - 1) * quantum + quantum;
    }
  }

  lemma CycleUnfolds(rows: map<EventId, Row>, records: map<EventId, Intent>, size: nat, c: seq<Conditions>)
    requires |c| > 0 && BatchOf(rows, records, size, c[0]).error.None?
    ensures var b := BatchOf(rows, records, size, c[0]);
            CycleOf(rows, records, size, c).0 == if b.claimed < size then b.rows else CycleOf(b.rows, b.records, size, c[1..]).0
  {
  }

  /** One cycle either drains everything deliverable or delivers a fixed quantum of it
      with each of its batches. */
  lemma {:induction false} CycleMakesProgress(rows: map<EventId, Row>, records: map<EventId, Intent>, size: nat,
                                              c: seq<Conditions>, bad: set<EventId>, quantum: int)
    requires |Stuck(rows, bad)| < size && quantum == size - |Stuck(rows, bad)|
    requires forall i :: 0 <= i < |c| ==> Quiet(c[i], bad)
    ensures Moved(rows, CycleOf(rows, records, size, c).0, bad, Quanta(|c|, quantum))
    decreases |c|
  {
    if |c| > 0 {
      var b := BatchOf(rows, records, size, c[0]);
      BatchMoves(rows, records, size, c[0], bad, quantum, Quanta(|c|, quantum));
      CycleUnfolds(rows, records, size, c);
      if b.claimed >= size {
        CycleMakesProgress(b.rows, b.records, size, c[1..], bad, quantum);
        MovedAdds(rows, b.rows, CycleOf(rows, records, size, c).0, bad, quantum, Quanta(|c[1..]|, quantum), Quanta(|c|, quantum));
      }
    }
  }

  /** One cycle of a relay on a quiet system; the pruner takes delivered rows. */
  ghost predicate OneCycle(rows: map<EventId, Row>, records: map<EventId, Intent>, rows': map<EventId, Row>,
                           records': map<EventId, Intent>, size: nat, c: seq<Conditions>, gone: set<EventId>, bad: set<EventId>)
  {
    var after := CycleOf(rows, records, size, c);
    && |c| == MAX_BATCHES && (forall k :: 0 <= k < |c| ==> Quiet(c[k], bad))
    && gone !! Pending(after.0) && rows' == after.0 - gone && records' == after.1
  }

  ghost predicate Cycles(rows: seq<map<EventId, Row>>, records: seq<map<EventId, Intent>>, size: nat,
                         c: seq<seq<Conditions>>, gone: seq<set<EventId>>, bad: set<EventId>)
  {
    && |rows| == |records| == |c| + 1 == |gone| + 1
    && forall i :: 0 <= i < |c| ==> OneCycle(rows[i], records[i], rows[i + 1], records[i + 1], size, c[i], gone[i], bad)
  }

  lemma OneCycleProgresses(rows: map<EventId, Row>, records: map<EventId, Intent>, rows': map<EventId, Row>,
                           records': map<EventId, Intent>, size: nat, c: seq<Conditions>, gone: set<EventId>,
                           bad: set<EventId>, quantum: int)
    requires OneCycle(rows, records, rows', records', size, c, gone, bad)
    requires |Stuck(rows, bad)| < size && quantum == size - |Stuck(rows, bad)|
    ensures Progressed(Pending(rows), Pending(rows'), bad, MAX_BATCHES * quantum)
    ensures Stuck(rows', bad) == Stuck(rows, bad)
  {
    CycleMakesProgress(rows, records, size, c, bad, quantum);
    QuantaTimes(MAX_BATCHES, quantum);
    assert Pending(rows') == Pending(CycleOf(rows, records, size, c).0);
  }

  /** Progress adds up along a series of queues. */
  lemma {:induction false} QueuesDrain(queues: seq<set<EventId>>, bad: set<EventId>, each: int, n: nat)
    requires n < |queues| && forall i :: 0 <= i < |queues| - 1 ==> Progressed(queues[i], queues[i + 1], bad, each)
    ensures Progressed(queues[0], queues[n], bad, Quanta(n, each))
    decreases n
  {
    if n > 0 {
      QueuesDrain(queues, bad, each, n - 1);
      ProgressAdds(queues[0], queues[n - 1], queues[n], bad, Quanta(n - 1, each), each);
    }
  }

  lemma {:induction false} StuckStays(rows: seq<map<EventId, Row>>, records: seq<map<EventId, Intent>>, size: nat,
                                      c: seq<seq<Conditions>>, gone: seq<set<EventId>>, bad: set<EventId>, quantum: int, n: nat)
    requires Cycles(rows, records, size, c, gone, bad) && n <= |c|
    requires |Stuck(rows[0], bad)| < size && quantum == size - |Stuck(rows[0], bad)|
    ensures Stuck(rows[n], bad) == Stuck(rows[0], bad)
    decreases n
  {
    if n > 0 {
      StuckStays(rows, records, size, c, gone, bad, quantum, n - 1);
      OneCycleProgresses(rows[n - 1], records[n - 1], rows[n], records[n], size, c[n - 1], gone[n - 1], bad, quantum);
    }
  }

  /** Repeated cycles deliver everything deliverable: the number still waiting falls by
      ten times the spare room of a batch each cycle, until it is zero. */
  lemma CyclesDrain(rows: seq<map<EventId, Row>>, records: seq<map<EventId, Intent>>, size: nat,
                    c: seq<seq<Conditions>>, gone: seq<set<EventId>>, bad: set<EventId>, quantum: int)
    requires Cycles(rows, records, size, c, gone, bad)
    requires |Stuck(rows[0], bad)| < size && quantum == size - |Stuck(rows[0], bad)|
    ensures Progressed(Pending(rows[0]), Pending(rows[|c|]), bad, |c| * (MAX_BATCHES * quantum))
  {
    var queues := seq(|rows|, i requires 0 <= i < |rows| => Pending(rows[i]));
    forall i | 0 <= i < |c| ensures Progressed(queues[i], queues[i + 1], bad, MAX_BATCHES * quantum) {
      StuckStays(rows, records, size, c, gone, bad, quantum, i);
      OneCycleProgresses(rows[i], records[i], rows[i + 1], records[i + 1], size, c[i], gone[i], bad, quantum);
    }
    QueuesDrain(queues, bad, MAX_BATCHES * quantum, |c|);
    QuantaTimes(|c|, MAX_BATCHES * quantum);
  }

  /** So as many cycles as there are deliverable intents are always enough. */
  lemma DrainedInTime(rows: seq<map<EventId, Row>>, records: seq<map<EventId, Intent>>, size: nat,
                      c: seq<seq<Conditions>>, gone: seq<set<EventId>>, bad: set<EventId>)
    requires Cycles(rows, records, size, c, gone, bad) && |Stuck(rows[0], bad)| < size
    requires |c| >= |Movable(rows[0], bad)|
    ensures Pending(rows[|c|]) <= bad
  {
    var quantum := size - |Stuck(rows[0], bad)|;
    CyclesDrain(rows, records, size, c, gone, bad, quantum);
    TimesAtLeast(|c|, MAX_BATCHES * quantum);
    var left := Pending(rows[|c|]) - bad;
    assert left == {} || |left| <= 0;
    assert left == {};
    assert forall id :: id in Pending(rows[|c|]) ==> id !in left;
  }

  /** A whole batch of undeliverable intents at the head of the queue stops one cycle. */
  lemma {:induction false} BlockedCycle(rows: map<EventId, Row>, records: map<EventId, Intent>, size: nat,
                                          c: seq<Conditions>, bad: set<EventId>, front: set<EventId>)
    requires Blocks(rows, bad, size, front) && forall i :: 0 <= i < |c| ==> Quiet(c[i], bad)
    ensures var rows' := CycleOf(rows, records, size, c).0;
            Pending(rows') == Pending(rows) && Blocks(rows', bad, size, front)
    decreases |c|
  {
    if |c| > 0 {
      BlockedBatch(rows, records, size, c[0], bad, front);
      var b := BatchOf(rows, records, size, c[0]);
      if b.error.None? && b.claimed >= size {
        BlockedCycle(b.rows, b.records, size, c[1..], bad, front);
      }
    }
  }

  lemma BlockedBatch(rows: map<EventId, Row>, records: map<EventId, Intent>, size: nat, c: Conditions,
                     bad: set<EventId>, front: set<EventId>)
    requires Blocks(rows, bad, size, front) && Quiet(c, bad)
    ensures var b := BatchOf(rows, records, size, c);
            b.delivered == 0 && Pending(b.rows) == Pending(rows) && Blocks(b.rows, bad, size, front)
  {
    QuietBatch(rows, records, size, c, bad);
    BlockedClaimsNone(rows, size, bad, front);
    var b := BatchOf(rows, records, size, c);
    assert Pending(b.rows) == Pending(rows);
    forall x, y | x in front && y in Movable(b.rows, bad) ensures StampBefore(StampOf(b.rows, x), StampOf(b.rows, y)) {
      assert y in Movable(rows, bad);
      assert StampOf(b.rows, x) == StampOf(rows, x) && StampOf(b.rows, y) == StampOf(rows, y);
    }
  }

  lemma BlockedOneCycle(rows: map<EventId, Row>, records: map<EventId, Intent>, rows': map<EventId, Row>,
                        records': map<EventId, Intent>, size: nat, c: seq<Conditions>, gone: set<EventId>,
                        bad: set<EventId>, front: set<EventId>)
    requires OneCycle(rows, records, rows', records', size, c, gone, bad) && Blocks(rows, bad, size, front)
    ensures Pending(rows') == Pending(rows) && Blocks(rows', bad, size, front)
  {
    BlockedCycle(rows, records, size, c, bad, front);
    var after := CycleOf(rows, records, size, c).0;
    assert Pending(rows') == Pending(after);
    assert forall id :: id in Pending(rows') ==> StampOf(rows', id) == StampOf(after, id);
  }

  /** The bound is sharp: behind such a front nothing is delivered by any number of
      cycles, the pruner between them taking what it likes of the delivered rows. */
  lemma {:induction false} BlockedForever(rows: seq<map<EventId, Row>>, records: seq<map<EventId, Intent>>, size: nat,
                                          c: seq<seq<Conditions>>, gone: seq<set<EventId>>, bad: set<EventId>,
                                          front: set<EventId>, n: nat)
    requires Cycles(rows, records, size, c, gone, bad) && n <= |c| && Blocks(rows[0], bad, size, front)
    ensures Pending(rows[n]) == Pending(rows[0]) && Blocks(rows[n], bad, size, front)
    decreases n
  {
    if n > 0 {
      BlockedForever(rows, records, size, c, gone, bad, front, n - 1);
      BlockedOneCycle(rows[n - 1], records[n - 1], rows[n], records[n], size, c[n - 1], gone[n - 1], bad, front);
    }
  }

  /** And for every batch size some table has such a front with a deliverable intent
      behind it: exactly that many earlier intents the sink will not take. */
  lemma FrontExists(size: nat, ids: set<EventId>, id: EventId, intent: Intent) returns (rows: map<EventId, Row>)
    requires |ids| == size && id !in ids
    ensures Blocks(rows, ids, size, ids) && Stuck(rows, ids) == ids && Movable(rows, ids) == {id}
  {
    rows := map k | k in ids + {id} :: Row(intent.(occurredAt := if k == id then 1 else 0), None, 0, None);
    assert Pending(rows) == ids + {id};
  }
}
