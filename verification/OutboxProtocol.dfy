/** What an audit intent says. */
module Intents {
  import opened Common

  /** Unencodable stands for detail that cannot be written as JSON. */
  datatype Metadata = Absent | Json(text: string) | Unencodable

  datatype Intent = Intent(
    action: string, resourceType: Option<string>, resourceId: Option<string>, occurredAt: int,
    actorUserId: Option<string>, organizationId: Option<string>, actorEmail: Option<string>,
    ipAddress: Option<string>, metadata: Metadata)
}

/** The transactional audit outbox as a protocol: application transactions, any number
    of relays, a destination that is durable on its own connection, and a pruner. */
module OutboxProtocol {
  import opened Common
  import opened Intents
  import opened Ordering

  type EventId = string
  type RelayId = nat

  datatype Row = Row(intent: Intent, deliveredAt: Option<int>, attempts: nat, lastError: Option<string>)

  /** What a relay has buffered for one claimed row, inside its open transaction. */
  datatype Mark = Delivered | DeliveryFailed(reason: string)

  /** A relay's open transaction: the rows it locked, in claim order, and one buffered
      update for each row already attempted. */
  datatype RelayTx = RelayTx(claimed: seq<EventId>, marks: seq<Mark>)

  datatype State = State(
    outbox: map<EventId, Row>,          // committed rows
    destination: map<EventId, Intent>,  // committed audit records
    relays: map<RelayId, RelayTx>,      // open transactions
    committed: map<EventId, Intent>)    // history: every intent ever committed

  /** What the sink reported, and whether the record is there. A report of success
      means it is; a failure may have come after the insert. */
  datatype SinkOutcome = Accepted | Rejected(inserted: bool, reason: string)

  datatype Event =
    | Commit(intents: map<EventId, Intent>)
    | Claim(relay: RelayId, limit: nat)
    | Deliver(relay: RelayId, outcome: SinkOutcome)
    | RelayCommit(relay: RelayId, now: int)
    | RelayAbort(relay: RelayId)
    | Prune(gone: set<EventId>)

  // ---- the statements ------------------------------------------------------

  predicate IsPending(row: Row)
  {
    row.deliveredAt.None?
  }

  function Pending(outbox: map<EventId, Row>): set<EventId>
  {
    set id | id in outbox && IsPending(outbox[id])
  }

  function LockedBy(relays: map<RelayId, RelayTx>): set<EventId>
  {
    set r, id | r in relays && id in relays[r].claimed :: id
  }

  function Stamps(outbox: map<EventId, Row>, ids: set<EventId>): set<Stamp>
    requires ids <= outbox.Keys
  {
    set id | id in ids :: Stamp(outbox[id].intent.occurredAt, id)
  }

  function StampIds(stamps: seq<Stamp>): (ids: seq<EventId>)
    ensures |ids| == |stamps|
    ensures forall i :: 0 <= i < |ids| ==> ids[i] == stamps[i].id
  {
    seq(|stamps|, i requires 0 <= i < |stamps| => stamps[i].id)
  }

  /** FOR UPDATE SKIP LOCKED: the oldest pending rows nobody else holds. */
  ghost function ClaimRows(outbox: map<EventId, Row>, locked: set<EventId>, limit: nat): seq<EventId>
  {
    StampIds(FirstStamps(Stamps(outbox, Pending(outbox) - locked), limit))
  }

  /** INSERT ... ON CONFLICT (id) DO NOTHING. */
  function Insert(destination: map<EventId, Intent>, id: EventId, intent: Intent): map<EventId, Intent>
  {
    if id in destination then destination else destination[id := intent]
  }

  predicate Inserts(o: SinkOutcome)
  {
    o.Accepted? || o.inserted
  }

  function MarkOf(o: SinkOutcome): Mark
  {
    if o.Accepted? then Delivered else DeliveryFailed(o.reason)
  }

  /** markDelivered and recordFailure. */
  function Marked(row: Row, mark: Mark, now: int): Row
  {
    match mark
    case Delivered => row.(deliveredAt := Some(now), attempts := row.attempts + 1, lastError := None)
    case DeliveryFailed(reason) => row.(attempts := row.attempts + 1, lastError := Some(reason))
  }

  function ApplyMarks(outbox: map<EventId, Row>, claimed: seq<EventId>, marks: seq<Mark>, now: int): map<EventId, Row>
    requires |marks| <= |claimed|
    decreases |marks|
  {
    if |marks| == 0 then outbox
    else
      var n := |marks| - 1;
      var rest := ApplyMarks(outbox, claimed, marks[..n], now);
      if claimed[n] in rest then rest[claimed[n] := Marked(rest[claimed[n]], marks[n], now)] else rest
  }

  /** Event identifiers are never reused: Enqueue mints them. */
  ghost predicate Step(s: State, e: Event, s': State)
  {
    match e
    case Commit(intents) =>
      && intents.Keys !! s.committed.Keys
      && s' == s.(outbox := s.outbox + (map id | id in intents :: Row(intents[id], None, 0, None)),
                  committed := s.committed + intents)
    case Claim(r, limit) =>
      && r !in s.relays
      && s' == s.(relays := s.relays[r := RelayTx(ClaimRows(s.outbox, LockedBy(s.relays), limit), [])])
    case Deliver(r, outcome) =>
      && r in s.relays && |s.relays[r].marks| < |s.relays[r].claimed|
      && s.relays[r].claimed[|s.relays[r].marks|] in s.outbox
      && s' == DeliverNext(s, r, outcome)
    case RelayCommit(r, now) =>
      && r in s.relays && |s.relays[r].marks| == |s.relays[r].claimed|
      && s' == s.(outbox := ApplyMarks(s.outbox, s.relays[r].claimed, s.relays[r].marks, now), relays := s.relays - {r})
    case RelayAbort(r) => r in s.relays && s' == s.(relays := s.relays - {r})
    case Prune(gone) =>
      && (forall id :: id in gone ==> id in s.outbox && !IsPending(s.outbox[id]))
      && s' == s.(outbox := s.outbox - gone)
  }

  function DeliverNext(s: State, r: RelayId, outcome: SinkOutcome): State
    requires r in s.relays && |s.relays[r].marks| < |s.relays[r].claimed|
    requires s.relays[r].claimed[|s.relays[r].marks|] in s.outbox
  {
    var tx := s.relays[r];
    var id := tx.claimed[|tx.marks|];
    s.(destination := if Inserts(outcome) then Insert(s.destination, id, s.outbox[id].intent) else s.destination,
       relays := s.relays[r := tx.(marks := tx.marks + [MarkOf(outcome)])])
  }

  // ---- the invariant -------------------------------------------------------

  ghost predicate Distinct(ids: seq<EventId>)
  {
    forall i, j :: 0 <= i < j < |ids| ==> ids[i] != ids[j]
  }

  /** The record is where it was captured, or where it was going. */
  ghost predicate Accounted(s: State, id: EventId)
    requires id in s.committed
  {
    || (id in s.outbox && IsPending(s.outbox[id]) && s.outbox[id].intent == s.committed[id])
    || (id in s.destination && s.destination[id] == s.committed[id])
  }

  ghost predicate TxInv(s: State, tx: RelayTx)
  {
    && |tx.marks| <= |tx.claimed|
    && Distinct(tx.claimed)
    && (forall i :: 0 <= i < |tx.claimed| ==> tx.claimed[i] in s.outbox && IsPending(s.outbox[tx.claimed[i]]))
    && (forall i :: 0 <= i < |tx.marks| && tx.marks[i].Delivered? ==> tx.claimed[i] in s.destination)
  }

  /** The stores agree with history, row by row. */
  ghost predicate Books(s: State)
  {
    && (forall id :: id in s.outbox ==> id in s.committed && s.outbox[id].intent == s.committed[id])
    && (forall id :: id in s.destination ==> id in s.committed && s.destination[id] == s.committed[id])
    && (forall id :: id in s.committed ==> Accounted(s, id))
    && (forall id :: id in s.outbox && !IsPending(s.outbox[id]) ==> id in s.destination)
  }

  ghost predicate TxsInv(s: State)
  {
    forall r :: r in s.relays ==> TxInv(s, s.relays[r])
  }

  ghost predicate Inv(s: State)
  {
    Books(s) && TxsInv(s) && DisjointClaims(s)
  }

  /** No two open transactions hold the same row. */
  ghost predicate DisjointClaims(s: State)
  {
    forall r, q, id :: r in s.relays && q in s.relays && id in s.relays[r].claimed && id in s.relays[q].claimed ==> r == q
  }

  ghost predicate Initial(s: State)
  {
    s == State(map[], map[], map[], map[])
  }

  lemma ClaimIsPage(outbox: map<EventId, Row>, locked: set<EventId>, limit: nat)
    ensures var ids := ClaimRows(outbox, locked, limit);
            var free := Pending(outbox) - locked;
            && Distinct(ids)
            && (forall id :: id in ids ==> id in free)
            && |ids| == (if |free| < limit then |free| else limit)
            && (forall id :: id in free && id !in ids ==> forall x :: x in ids ==>
                  StampBefore(Stamp(outbox[x].intent.occurredAt, x), Stamp(outbox[id].intent.occurredAt, id)))
  {
    StampOrder();
    var free := Pending(outbox) - locked;
    var stamps := Stamps(outbox, free);
    FirstNIsPage(stamps, limit, StampBefore);
    var page := FirstN(stamps, limit, StampBefore);
    var ids := ClaimRows(outbox, locked, limit);
    forall i | 0 <= i < |page| ensures page[i].id in free && page[i] == Stamp(outbox[page[i].id].intent.occurredAt, page[i].id) {
      assert page[i] in stamps;
    }
    forall i, j | 0 <= i < j < |ids| ensures ids[i] != ids[j] {
      assert StampBefore(page[i], page[j]);
      TextBeforeIrreflexive(page[i].id);
    }
    StampsSize(outbox, free);
    forall id | id in free && id !in ids
      ensures forall x :: x in ids ==>
                StampBefore(Stamp(outbox[x].intent.occurredAt, x), Stamp(outbox[id].intent.occurredAt, id))
    {
      var stamp := Stamp(outbox[id].intent.occurredAt, id);
      assert stamp in stamps;
      forall k | 0 <= k < |page| ensures page[k] != stamp {
        assert ids[k] in ids;
      }
      forall x | x in ids ensures StampBefore(Stamp(outbox[x].intent.occurredAt, x), stamp) {
        var k :| 0 <= k < |ids| && ids[k] == x;
        assert page[k] in page;
      }
    }
  }

  lemma {:induction false} StampsSize(outbox: map<EventId, Row>, ids: set<EventId>)
    requires ids <= outbox.Keys
    ensures |Stamps(outbox, ids)| == |ids|
    decreases ids
  {
    if ids != {} {
      var id :| id in ids;
      StampsSize(outbox, ids - {id});
      assert Stamps(outbox, ids) == Stamps(outbox, ids - {id}) + {Stamp(outbox[id].intent.occurredAt, id)};
    }
  }

  /** Buffered updates touch claimed rows only, each by its own mark. */
  lemma {:induction false} ApplyMarksAt(outbox: map<EventId, Row>, claimed: seq<EventId>, marks: seq<Mark>, now: int)
    requires |marks| <= |claimed| && Distinct(claimed)
    ensures var after := ApplyMarks(outbox, claimed, marks, now);
            && after.Keys == outbox.Keys
            && (forall id :: id in outbox && id !in claimed[..|marks|] ==> after[id] == outbox[id])
            && (forall i :: 0 <= i < |marks| && claimed[i] in outbox ==> after[claimed[i]] == Marked(outbox[claimed[i]], marks[i], now))
    decreases |marks|
  {
    if |marks| > 0 {
      var n := |marks| - 1;
      ApplyMarksAt(outbox, claimed, marks[..n], now);
      assert claimed[..|marks|] == claimed[..n] + [claimed[n]];
      assert claimed[n] !in claimed[..n];
    }
  }

  lemma CommitKeepsBooks(s: State, e: Event, s': State)
    requires Books(s) && e.Commit? && Step(s, e, s')
    ensures Books(s')
  {
    forall id | id in s'.committed ensures Accounted(s', id) {
      if id in s.committed { assert Accounted(s, id); }
    }
  }

  /** Claimed rows stay claimed and pending while nobody touches them. */
  lemma TxInvStands(s: State, s': State, tx: RelayTx)
    requires TxInv(s, tx)
    requires forall i :: 0 <= i < |tx.claimed| ==> tx.claimed[i] in s'.outbox && IsPending(s'.outbox[tx.claimed[i]])
    requires s.destination.Keys <= s'.destination.Keys
    ensures TxInv(s', tx)
  {
  }

  lemma CommitKeepsInv(s: State, e: Event, s': State)
    requires Inv(s) && e.Commit? && Step(s, e, s')
    ensures Inv(s')
  {
    CommitKeepsBooks(s, e, s');
    forall r | r in s'.relays ensures TxInv(s', s'.relays[r]) { TxInvStands(s, s', s.relays[r]); }
  }

  /** Skipping locked rows keeps claims disjoint. */
  lemma ClaimIsDisjoint(s: State, r: RelayId, limit: nat)
    requires DisjointClaims(s) && r !in s.relays
    ensures DisjointClaims(s.(relays := s.relays[r := RelayTx(ClaimRows(s.outbox, LockedBy(s.relays), limit), [])]))
  {
    ClaimIsPage(s.outbox, LockedBy(s.relays), limit);
    var ids := ClaimRows(s.outbox, LockedBy(s.relays), limit);
    forall q, id | q in s.relays && id in s.relays[q].claimed ensures id !in ids {
      assert id in LockedBy(s.relays);
    }
  }

  lemma ClaimKeepsInv(s: State, e: Event, s': State)
    requires Inv(s) && e.Claim? && Step(s, e, s')
    ensures Inv(s')
  {
    ClaimIsDisjoint(s, e.relay, e.limit);
    NewClaimInv(s, s', LockedBy(s.relays), e.limit);
    SameStoresSameBooks(s, s');
    forall q | q in s.relays ensures TxInv(s', s'.relays[q]) { TxInvStands(s, s', s.relays[q]); }
  }

  lemma SameStoresSameBooks(s: State, s': State)
    requires Books(s) && s'.outbox == s.outbox && s'.destination == s.destination && s'.committed == s.committed
    ensures Books(s')
  {
    forall id | id in s'.committed ensures Accounted(s', id) { assert Accounted(s, id); }
  }

  lemma NewClaimInv(s: State, s': State, locked: set<EventId>, limit: nat)
    requires s'.outbox == s.outbox
    ensures TxInv(s', RelayTx(ClaimRows(s.outbox, locked, limit), []))
  {
    ClaimIsPage(s.outbox, locked, limit);
    var ids := ClaimRows(s.outbox, locked, limit);
    forall i | 0 <= i < |ids| ensures ids[i] in s.outbox && IsPending(s.outbox[ids[i]]) {
      assert ids[i] in ids;
    }
  }

  lemma DeliverKeepsBooks(s: State, e: Event, s': State)
    requires Books(s) && e.Deliver? && Step(s, e, s')
    ensures Books(s') && s.destination.Keys <= s'.destination.Keys
  {
    forall id | id in s'.committed ensures Accounted(s', id) { assert Accounted(s, id); }
  }

  /** The relay's own buffer grows by the mark of the row just offered. */
  lemma DeliverKeepsOwnTx(s: State, e: Event, s': State)
    requires e.Deliver? && Step(s, e, s') && TxInv(s, s.relays[e.relay])
    ensures TxInv(s', s'.relays[e.relay])
  {
  }

  lemma DeliverKeepsInv(s: State, e: Event, s': State)
    requires Inv(s) && e.Deliver? && Step(s, e, s')
    ensures Inv(s')
  {
    DeliverKeepsBooks(s, e, s');
    DeliverKeepsOwnTx(s, e, s');
    forall q | q in s'.relays ensures TxInv(s', s'.relays[q]) {
      if q != e.relay { TxInvStands(s, s', s.relays[q]); }
    }
    assert forall q :: q in s'.relays ==> q in s.relays && s'.relays[q].claimed == s.relays[q].claimed;
  }

  /** What a commit does to one row: untouched unless claimed; delivered only when its
      record is at the destination. */
  lemma CommittedRow(s: State, tx: RelayTx, now: int, id: EventId)
    requires TxInv(s, tx) && |tx.marks| == |tx.claimed| && id in s.outbox
    ensures var after := ApplyMarks(s.outbox, tx.claimed, tx.marks, now);
            && after.Keys == s.outbox.Keys
            && after[id].intent == s.outbox[id].intent
            && (id !in tx.claimed ==> after[id] == s.outbox[id])
            && (IsPending(after[id]) ==> IsPending(s.outbox[id]))
            && (IsPending(s.outbox[id]) && !IsPending(after[id]) ==> id in s.destination)
  {
    ApplyMarksAt(s.outbox, tx.claimed, tx.marks, now);
    assert tx.claimed[..|tx.marks|] == tx.claimed;
    if id in tx.claimed {
      var i :| 0 <= i < |tx.claimed| && tx.claimed[i] == id;
    }
  }

  lemma RelayCommitKeepsBooks(s: State, e: Event, s': State)
    requires Inv(s) && e.RelayCommit? && Step(s, e, s')
    ensures Books(s')
  {
    var tx := s.relays[e.relay];
    ApplyMarksAt(s.outbox, tx.claimed, tx.marks, e.now);
    forall id | id in s'.outbox
      ensures id in s'.committed && s'.outbox[id].intent == s'.committed[id]
      ensures !IsPending(s'.outbox[id]) ==> id in s'.destination
    {
      CommittedRow(s, tx, e.now, id);
    }
    forall id | id in s'.committed ensures Accounted(s', id) {
      assert Accounted(s, id);
      if id in s.outbox { CommittedRow(s, tx, e.now, id); }
    }
  }

  lemma RelayCommitKeepsInv(s: State, e: Event, s': State)
    requires Inv(s) && e.RelayCommit? && Step(s, e, s')
    ensures Inv(s')
  {
    RelayCommitKeepsBooks(s, e, s');
    forall q | q in s'.relays ensures TxInv(s', s'.relays[q]) {
      OtherClaimsStand(s, e.relay, q, e.now);
      TxInvStands(s, s', s.relays[q]);
    }
  }

  lemma OtherClaimsStand(s: State, r: RelayId, q: RelayId, now: int)
    requires r in s.relays && q in s.relays && q != r && DisjointClaims(s)
    requires TxInv(s, s.relays[r]) && TxInv(s, s.relays[q]) && |s.relays[r].marks| == |s.relays[r].claimed|
    ensures var after := ApplyMarks(s.outbox, s.relays[r].claimed, s.relays[r].marks, now);
            forall i :: 0 <= i < |s.relays[q].claimed| ==>
              s.relays[q].claimed[i] in after && IsPending(after[s.relays[q].claimed[i]])
  {
    forall i | 0 <= i < |s.relays[q].claimed|
      ensures var after := ApplyMarks(s.outbox, s.relays[r].claimed, s.relays[r].marks, now);
              s.relays[q].claimed[i] in after && IsPending(after[s.relays[q].claimed[i]])
    {
      var id := s.relays[q].claimed[i];
      assert id in s.relays[q].claimed;
      CommittedRow(s, s.relays[r], now, id);
    }
  }

  lemma AbortAndPruneKeepInv(s: State, e: Event, s': State)
    requires Inv(s) && (e.RelayAbort? || e.Prune?) && Step(s, e, s')
    ensures Inv(s')
  {
    forall id | id in s'.committed ensures Accounted(s', id) { assert Accounted(s, id); }
    forall q | q in s'.relays ensures TxInv(s', s'.relays[q]) { TxInvStands(s, s', s.relays[q]); }
  }

  lemma StepKeepsInv(s: State, e: Event, s': State)
    requires Inv(s) && Step(s, e, s')
    ensures Inv(s')
  {
    match e
    case Commit(_) => CommitKeepsInv(s, e, s');
    case Claim(_, _) => ClaimKeepsInv(s, e, s');
    case Deliver(_, _) => DeliverKeepsInv(s, e, s');
    case RelayCommit(_, _) => RelayCommitKeepsInv(s, e, s');
    case RelayAbort(_) => AbortAndPruneKeepInv(s, e, s');
    case Prune(_) => AbortAndPruneKeepInv(s, e, s');
  }

  ghost predicate Run(states: seq<State>, events: seq<Event>)
  {
    && |states| == |events| + 1
    && forall i :: 0 <= i < |events| ==> Step(states[i], events[i], states[i + 1])
  }

  lemma {:induction false} RunKeepsInv(states: seq<State>, events: seq<Event>, n: nat)
    requires Run(states, events) && Inv(states[0]) && n < |states|
    ensures Inv(states[n])
    decreases n
  {
    if n > 0 {
      RunKeepsInv(states, events, n - 1);
      StepKeepsInv(states[n - 1], events[n - 1], states[n]);
    }
  }

  // ---- conservation --------------------------------------------------------

  /** In every interleaving of commits, relays, sink failures, crashes and prunes, each
      committed intent is still pending or has its record at the destination (one, the
      destination being keyed by event id, and of the intent's own content); a row
      marked delivered has its record; and no two relays hold the same row. */
  lemma Conservation(states: seq<State>, events: seq<Event>, n: nat, id: EventId)
    requires Run(states, events) && Initial(states[0]) && n < |states|
    ensures id in states[n].committed ==> Accounted(states[n], id)
    ensures id in states[n].destination ==>
              id in states[n].committed && states[n].destination[id] == states[n].committed[id]
    ensures id in states[n].outbox && states[n].outbox[id].deliveredAt.Some? ==> id in states[n].destination
    ensures DisjointClaims(states[n])
  {
    RunKeepsInv(states, events, n);
  }

  /** Records at the destination are never changed or removed, and history only grows. */
  lemma StepKeepsRecords(s: State, e: Event, s': State, id: EventId)
    requires Step(s, e, s')
    ensures id in s.destination ==> id in s'.destination && s'.destination[id] == s.destination[id]
    ensures id in s.committed ==> id in s'.committed && s'.committed[id] == s.committed[id]
  {
  }

  /** A pending row leaves the outbox, or stops being pending, only by the commit of a
      relay that holds it and whose sink accepted it. Pruning never touches it. */
  lemma OnlyDeliveryEndsPending(s: State, e: Event, s': State, id: EventId)
    requires Inv(s) && Step(s, e, s')
    requires id in Pending(s.outbox) && id !in Pending(s'.outbox)
    ensures e.RelayCommit?
    ensures exists i :: 0 <= i < |s.relays[e.relay].marks| && s.relays[e.relay].marks[i].Delivered? &&
                        s.relays[e.relay].claimed[i] == id
    ensures id in s'.destination
  {
    if e.RelayCommit? {
      var tx := s.relays[e.relay];
      assert TxInv(s, tx);
      ApplyMarksAt(s.outbox, tx.claimed, tx.marks, e.now);
      assert id in tx.claimed[..|tx.marks|];
    }
  }

  // ---- reused identifiers --------------------------------------------------

  /** A commit that does not mint: an intent under an identifier of the caller's choice. */
  function Reuse(s: State, id: EventId, intent: Intent): State
  {
    s.(outbox := s.outbox[id := Row(intent, None, 0, None)], committed := s.committed[id := intent])
  }

  /** After an identifier is reused, in every run, the new intent is accounted for
      exactly while it is pending, unless the old record happens to say the same. */
  lemma {:induction false} ReusedIdLosesRecord(states: seq<State>, events: seq<Event>, s: State, n: nat, id: EventId, intent: Intent)
    requires Run(states, events) && n < |states| && id in s.destination && states[0] == Reuse(s, id, intent)
    ensures id in states[n].committed && states[n].committed[id] == intent
    ensures id in states[n].destination && states[n].destination[id] == s.destination[id]
    ensures Accounted(states[n], id) <==>
            || (id in Pending(states[n].outbox) && states[n].outbox[id].intent == intent)
            || s.destination[id] == intent
    decreases n
  {
    if n > 0 {
      ReusedIdLosesRecord(states, events, s, n - 1, id, intent);
      StepKeepsRecords(states[n - 1], events[n - 1], states[n], id);
    }
  }

  /** The one row of an outbox that held nothing, claimed by one relay. */
  function Claimed(s: State, r: RelayId, id: EventId, marks: seq<Mark>): State
  {
    s.(relays := map[r := RelayTx([id], marks)])
  }

  lemma ClaimsReused(s: State, r: RelayId, id: EventId)
    requires s.outbox.Keys == {id} && IsPending(s.outbox[id]) && s.relays == map[]
    ensures Step(s, Event.Claim(r, 1), Claimed(s, r, id, []))
  {
    assert LockedBy(s.relays) == {};
    ClaimsTheOnlyRow(s.outbox, id);
  }

  lemma AcceptsReused(s: State, r: RelayId, id: EventId)
    requires id in s.outbox && id in s.destination
    ensures Step(Claimed(s, r, id, []), Event.Deliver(r, Accepted), Claimed(s, r, id, [Delivered]))
  {
    var tx := RelayTx([id], []);
    assert tx.marks + [MarkOf(Accepted)] == [Delivered];
    assert Claimed(s, r, id, []).relays[r := tx.(marks := [Delivered])] == Claimed(s, r, id, [Delivered]).relays;
  }

  lemma MarksReused(s: State, r: RelayId, id: EventId, now: int)
    requires id in s.outbox && s.relays == map[]
    ensures Step(Claimed(s, r, id, [Delivered]), RelayCommit(r, now),
                 s.(outbox := s.outbox[id := Marked(s.outbox[id], Delivered, now)]))
  {
    var held := Claimed(s, r, id, [Delivered]);
    assert ApplyMarks(held.outbox, [id], [Delivered][..0], now) == held.outbox;
    assert held.relays - {r} == map[];
  }

  /** And such a run exists: the relay's insert conflicts, does nothing and is accepted,
      and the row is marked delivered without its record. */
  lemma ReusedIdIsMarkedDelivered(s: State, r: RelayId, id: EventId, intent: Intent, now: int) returns (states: seq<State>, events: seq<Event>)
    requires id in s.destination && s.outbox == map[] && s.relays == map[]
    ensures Run(states, events) && states[0] == Reuse(s, id, intent)
    ensures var end := states[|events|];
            && id in end.outbox && end.outbox[id].deliveredAt == Some(now)
            && id in end.committed && (Accounted(end, id) <==> s.destination[id] == intent)
  {
    var s0 := Reuse(s, id, intent);
    ClaimsReused(s0, r, id);
    AcceptsReused(s0, r, id);
    MarksReused(s0, r, id, now);
    states := [s0, Claimed(s0, r, id, []), Claimed(s0, r, id, [Delivered]),
               s0.(outbox := s0.outbox[id := Marked(s0.outbox[id], Delivered, now)])];
    events := [Event.Claim(r, 1), Event.Deliver(r, Accepted), RelayCommit(r, now)];
  }

  lemma ClaimsTheOnlyRow(outbox: map<EventId, Row>, id: EventId)
    requires outbox.Keys == {id} && IsPending(outbox[id])
    ensures ClaimRows(outbox, {}, 1) == [id]
  {
    ClaimIsPage(outbox, {}, 1);
    assert Pending(outbox) - {} == {id};
    var ids := ClaimRows(outbox, {}, 1);
    assert ids[0] in ids;
  }
}
