/** The deferred constraint trigger as a predicate on commits, and its composition with
    the outbox: a guarded mutation and its audit record are never seen apart. */
module AuditedCommit {
  import opened Common
  import opened Intents
  import LikePattern
  import P = OutboxProtocol

  /** An empty action leaves the operation unguarded. */
  datatype TriggerSpec = TriggerSpec(resourceType: string, onInsert: string, onUpdate: string, onDelete: string)

  /** One row event, with the subject column as text, None standing for NULL. */
  datatype Change =
    | Inserted(after: Option<string>)
    | Updated(before: Option<string>, after: Option<string>)
    | Deleted(before: Option<string>)

  // ---- the rendered trigger ------------------------------------------------

  /** names() accepts the spec, so DDL renders a trigger for it. */
  predicate Renders(spec: TriggerSpec)
  {
    !Blank(spec.resourceType) && !(spec.onInsert == "" && spec.onUpdate == "" && spec.onDelete == "")
  }

  /** The rendered assertion function: true when it returns, false when it raises.
      NULL columns of an intent match nothing. */
  predicate AssertIntent(intents: map<P.EventId, Intent>, subject: Option<string>, resource: string, action: string)
  {
    && subject.Some?
    && exists id :: id in intents && Matches(intents[id], subject.value, resource, action)
  }

  predicate Matches(o: Intent, subject: string, resource: string, action: string)
  {
    && o.resourceType == Some(resource)
    && o.resourceId.Some? && LikePattern.Fold(LikePattern.ASCII, o.resourceId.value) == LikePattern.Fold(LikePattern.ASCII, subject)
    && o.action == action
  }

  /** The trigger function, branch by branch: an unguarded operation has no branch. */
  predicate Fires(spec: TriggerSpec, change: Change, intents: map<P.EventId, Intent>)
  {
    match change
    case Inserted(after) =>
      spec.onInsert == "" || AssertIntent(intents, after, spec.resourceType, spec.onInsert)
    case Updated(before, after) =>
      || spec.onUpdate == ""
      || (&& AssertIntent(intents, before, spec.resourceType, spec.onUpdate)
          && (after != before ==> AssertIntent(intents, after, spec.resourceType, spec.onUpdate)))
    case Deleted(before) =>
      spec.onDelete == "" || AssertIntent(intents, before, spec.resourceType, spec.onDelete)
  }

  /** The promise, free of the trigger's branches: the subjects a change is about, and
      the action each must be recorded under. */
  function Subjects(change: Change): set<Option<string>>
  {
    match change
    case Inserted(after) => {after}
    case Updated(before, after) => {before, after}
    case Deleted(before) => {before}
  }

  function ActionFor(spec: TriggerSpec, change: Change): string
  {
    match change
    case Inserted(_) => spec.onInsert
    case Updated(_, _) => spec.onUpdate
    case Deleted(_) => spec.onDelete
  }

  /** The intent says of this subject, by its own fields, that this was done to it. */
  predicate Records(o: Intent, action: string, resource: string, subject: string)
  {
    && o.action == action && o.resourceType == Some(resource)
    && o.resourceId.Some? && LikePattern.SameUpToCase(o.resourceId.value, subject)
  }

  ghost predicate Recorded(intents: map<P.EventId, Intent>, id: P.EventId, spec: TriggerSpec, change: Change, subject: Option<string>)
  {
    subject.Some? && id in intents && Records(intents[id], ActionFor(spec, change), spec.resourceType, subject.value)
  }

  lemma AssertIsRecord(intents: map<P.EventId, Intent>, subject: Option<string>, resource: string, action: string)
    ensures AssertIntent(intents, subject, resource, action) <==>
              subject.Some? && exists id :: id in intents && Records(intents[id], action, resource, subject.value)
  {
    forall id | id in intents && subject.Some? && intents[id].resourceId.Some?
      ensures Matches(intents[id], subject.value, resource, action) <==> Records(intents[id], action, resource, subject.value)
    {
      LikePattern.LowerIsUpToCase(intents[id].resourceId.value, subject.value);
    }
  }

  /** The trigger lets a change through exactly when every subject of it, old and new,
      has an intent of this transaction under the pinned action and resource type, naming
      it up to ASCII case; a row with no subject never passes a guarded operation. */
  lemma FiresIffEverySubjectRecorded(spec: TriggerSpec, change: Change, intents: map<P.EventId, Intent>)
    ensures Fires(spec, change, intents) <==>
              (ActionFor(spec, change) != "" ==>
                 forall subject :: subject in Subjects(change) ==>
                   subject.Some? &&
                   exists id :: && id in intents
                                && intents[id].action == ActionFor(spec, change)
                                && intents[id].resourceType == Some(spec.resourceType)
                                && intents[id].resourceId.Some?
                                && LikePattern.SameUpToCase(intents[id].resourceId.value, subject.value))
  {
    var action := ActionFor(spec, change);
    forall subject | subject in Subjects(change)
      ensures AssertIntent(intents, subject, spec.resourceType, action) <==>
                subject.Some? && exists id :: id in intents && Records(intents[id], action, spec.resourceType, subject.value)
    {
      AssertIsRecord(intents, subject, spec.resourceType, action);
    }
    match change
    case Inserted(after) => assert after in Subjects(change);
    case Updated(before, after) => assert before in Subjects(change) && after in Subjects(change);
    case Deleted(before) => assert before in Subjects(change);
  }

  /** The same, subject by subject. */
  lemma FiresRecords(spec: TriggerSpec, change: Change, intents: map<P.EventId, Intent>, subject: Option<string>)
    requires Fires(spec, change, intents) && ActionFor(spec, change) != "" && subject in Subjects(change)
    ensures exists id :: Recorded(intents, id, spec, change, subject)
  {
    FiresIffEverySubjectRecorded(spec, change, intents);
    var id :| && id in intents && intents[id].action == ActionFor(spec, change) && intents[id].resourceId.Some?
              && intents[id].resourceType == Some(spec.resourceType)
              && LikePattern.SameUpToCase(intents[id].resourceId.value, subject.value);
    assert Recorded(intents, id, spec, change, subject);
  }

  /** A spec that renders is not vacuous: some change is refused without an intent. One
      that guards no operation would refuse nothing. */
  lemma RendersIffItCanRefuse(spec: TriggerSpec)
    requires !Blank(spec.resourceType)
    ensures Renders(spec) <==> exists change :: !Fires(spec, change, map[])
  {
    assert !Fires(spec, Inserted(None), map[]) <==> spec.onInsert != "";
    assert !Fires(spec, Updated(None, None), map[]) <==> spec.onUpdate != "";
    assert !Fires(spec, Deleted(None), map[]) <==> spec.onDelete != "";
  }

  // ---- transactions --------------------------------------------------------

  /** Statements of an application transaction; Withdraw deletes an intent it wrote. */
  datatype Statement =
    | Mutate(table: string, change: Change)
    | Enqueue(id: P.EventId, intent: Intent)
    | Withdraw(id: P.EventId)

  datatype RowEvent = RowEvent(table: string, change: Change)

  /** What is deferred to commit; failed once any statement has raised. */
  datatype Tx = Tx(events: seq<RowEvent>, intents: map<P.EventId, Intent>, failed: bool)

  const BEGUN := Tx([], map[], false)

  function Apply(tx: Tx, s: Statement): Tx
  {
    match s
    case Mutate(table, change) => tx.(events := tx.events + [RowEvent(table, change)])
    case Enqueue(id, intent) =>
      if intent.action == "" || intent.metadata.Unencodable? || id in tx.intents then tx.(failed := true)
      else tx.(intents := tx.intents[id := intent])
    case Withdraw(id) => tx.(intents := tx.intents - {id})
  }

  function Exec(tx: Tx, statements: seq<Statement>): Tx
    decreases |statements|
  {
    if |statements| == 0 then tx else Exec(Apply(tx, statements[0]), statements[1..])
  }

  predicate EventPasses(specs: map<string, TriggerSpec>, e: RowEvent, intents: map<P.EventId, Intent>)
  {
    e.table in specs ==> Fires(specs[e.table], e.change, intents)
  }

  /** COMMIT runs the deferred triggers, one per row event, on what the transaction has
      written by then. */
  predicate Commits(specs: map<string, TriggerSpec>, tx: Tx)
  {
    !tx.failed && forall i :: 0 <= i < |tx.events| ==> EventPasses(specs, tx.events[i], tx.intents)
  }

  /** The row events of a transaction, in order. */
  function Events(statements: seq<Statement>): seq<RowEvent>
  {
    if |statements| == 0 then []
    else (if statements[0].Mutate? then [RowEvent(statements[0].table, statements[0].change)] else []) + Events(statements[1..])
  }

  /** Its writes to the outbox, in order. */
  function OutboxWrites(statements: seq<Statement>): seq<Statement>
  {
    if |statements| == 0 then []
    else (if statements[0].Mutate? then [] else [statements[0]]) + OutboxWrites(statements[1..])
  }

  lemma {:induction false} WritesIgnoreEvents(tx: Tx, events: seq<RowEvent>, statements: seq<Statement>)
    ensures Exec(tx.(events := events), OutboxWrites(statements)) == Exec(tx, OutboxWrites(statements)).(events := events)
    ensures Exec(tx, OutboxWrites(statements)).events == tx.events
    decreases |statements|
  {
    if |statements| > 0 {
      var s, rest := statements[0], statements[1..];
      if s.Mutate? {
        WritesIgnoreEvents(tx, events, rest);
        assert OutboxWrites(statements) == OutboxWrites(rest);
      } else {
        WritesIgnoreEvents(Apply(tx, s), events, rest);
        assert OutboxWrites(statements)[0] == s && OutboxWrites(statements)[1..] == OutboxWrites(rest);
      }
    }
  }

  lemma EventsStep(events: seq<RowEvent>, s: Statement, rest: seq<Statement>)
    ensures events + Events([s] + rest) == (if s.Mutate? then events + [RowEvent(s.table, s.change)] else events) + Events(rest)
    ensures OutboxWrites([s] + rest) == (if s.Mutate? then [] else [s]) + OutboxWrites(rest)
  {
    assert ([s] + rest)[1..] == rest;
  }

  lemma ExecStep(tx: Tx, s: Statement, rest: seq<Statement>)
    ensures Exec(tx, [s] + rest) == Exec(Apply(tx, s), rest)
  {
    assert ([s] + rest)[1..] == rest;
  }

  lemma ApplyKeepsEvents(tx: Tx, s: Statement)
    ensures Apply(tx, s).events == if s.Mutate? then tx.events + [RowEvent(s.table, s.change)] else tx.events
  {
  }

  /** A transaction comes to its row events and to its outbox writes, independently. */
  lemma {:induction false} ExecIsBoth(tx: Tx, statements: seq<Statement>)
    ensures Exec(tx, statements) == Exec(tx, OutboxWrites(statements)).(events := tx.events + Events(statements))
    decreases |statements|
  {
    if |statements| == 0 {
      assert tx.events + [] == tx.events;
    } else {
      var s, rest := statements[0], statements[1..];
      assert statements == [s] + rest;
      ExecIsBoth(Apply(tx, s), rest);
      ExecStep(tx, s, rest);
      EventsStep(tx.events, s, rest);
      ApplyKeepsEvents(tx, s);
      if s.Mutate? {
        WritesIgnoreEvents(tx, Apply(tx, s).events, rest);
        assert [] + OutboxWrites(rest) == OutboxWrites(rest);
      } else {
        ExecStep(tx, s, OutboxWrites(rest));
      }
    }
  }

  /** Deferral: mutations and the intents about them may be interleaved in any way. Two
      transactions with the same outbox writes come to the same commit exactly when they
      make the same changes in the same order. */
  lemma EitherOrder(a: seq<Statement>, b: seq<Statement>)
    requires OutboxWrites(a) == OutboxWrites(b)
    ensures Exec(BEGUN, a) == Exec(BEGUN, b) <==> Events(a) == Events(b)
  {
    ExecIsBoth(BEGUN, a);
    ExecIsBoth(BEGUN, b);
    assert [] + Events(a) == Events(a) && [] + Events(b) == Events(b);
  }

  // ---- what a commit requires, statement by statement -----------------------

  lemma {:induction false} ExecSnoc(tx: Tx, statements: seq<Statement>)
    requires |statements| > 0
    ensures var n := |statements| - 1;
            Exec(tx, statements) == Apply(Exec(tx, statements[..n]), statements[n])
    decreases |statements|
  {
    var n := |statements| - 1;
    if n > 0 {
      ExecSnoc(Apply(tx, statements[0]), statements[1..]);
      assert statements[1..][..n - 1] == statements[..n][1..];
    } else {
      assert statements[..0] == [] && statements[1..] == [];
    }
  }

  /** The intent is written at j and not withdrawn after. */
  ghost predicate Stands(statements: seq<Statement>, j: nat, id: P.EventId, intent: Intent)
  {
    && j < |statements| && statements[j] == Enqueue(id, intent)
    && forall k :: j < k < |statements| ==> statements[k] != Withdraw(id)
  }

  lemma StandsSnoc(statements: seq<Statement>, j: nat, id: P.EventId, intent: Intent)
    requires |statements| > 0
    ensures var n := |statements| - 1;
            Stands(statements, j, id, intent) <==>
              if j < n then Stands(statements[..n], j, id, intent) && statements[n] != Withdraw(id)
              else j == n && statements[n] == Enqueue(id, intent)
  {
    var n := |statements| - 1;
    if j < n && Stands(statements, j, id, intent) {
      forall k | j < k < n ensures statements[..n][k] != Withdraw(id) { assert statements[k] != Withdraw(id); }
    }
    if j < n && Stands(statements[..n], j, id, intent) && statements[n] != Withdraw(id) {
      forall k | j < k <= n ensures statements[k] != Withdraw(id) {
        if k < n { assert statements[..n][k] != Withdraw(id); }
      }
    }
  }

  /** What a transaction has written by its commit, unless a statement raised. */
  lemma {:induction false} Leaves(statements: seq<Statement>, id: P.EventId, intent: Intent)
    requires !Exec(BEGUN, statements).failed
    ensures var left := Exec(BEGUN, statements).intents;
            id in left && left[id] == intent <==> exists j :: Stands(statements, j, id, intent)
    decreases |statements|
  {
    if |statements| > 0 {
      var n := |statements| - 1;
      ExecSnoc(BEGUN, statements);
      Leaves(statements[..n], id, intent);
      StandsSnoc(statements, n, id, intent);
      var before := Exec(BEGUN, statements[..n]);
      if id in before.intents && before.intents[id] == intent && statements[n] != Withdraw(id) {
        var j :| Stands(statements[..n], j, id, intent);
        StandsSnoc(statements, j, id, intent);
        assert Stands(statements, j, id, intent);
      }
      if j :| Stands(statements, j, id, intent) {
        StandsSnoc(statements, j, id, intent);
      }
    }
  }

  /** A statement raises exactly when it writes an intent without an action or with detail
      that cannot be encoded, or under an identifier this transaction has already used and not withdrawn. */
  lemma {:induction false} RaisesIff(statements: seq<Statement>)
    ensures Exec(BEGUN, statements).failed <==>
              exists k :: Raises(statements, k)
    decreases |statements|
  {
    if |statements| > 0 {
      var n := |statements| - 1;
      ExecSnoc(BEGUN, statements);
      RaisesIff(statements[..n]);
      var before := Exec(BEGUN, statements[..n]);
      if k: nat :| Raises(statements[..n], k) {
        assert statements[..k] == statements[..n][..k];
        assert Raises(statements, k);
      }
      if k: nat :| Raises(statements, k) && k < n {
        assert statements[..k] == statements[..n][..k];
        assert Raises(statements[..n], k);
      }
      if !before.failed && statements[n].Enqueue? {
        var id := statements[n].id;
        if id in before.intents {
          Leaves(statements[..n], id, before.intents[id]);
          assert Raises(statements, n);
        }
        forall j, intent | Stands(statements[..n], j, id, intent) ensures id in before.intents {
          Leaves(statements[..n], id, intent);
        }
        assert Raises(statements, n) <==>
          statements[n].intent.action == "" || statements[n].intent.metadata.Unencodable? || id in before.intents;
      }
    }
  }

  ghost predicate Raises(statements: seq<Statement>, k: nat)
  {
    && k < |statements| && statements[k].Enqueue?
    && (statements[k].intent.action == "" || statements[k].intent.metadata.Unencodable? ||
        exists j, intent :: Stands(statements[..k], j, statements[k].id, intent))
  }

  lemma {:induction false} EventsAt(statements: seq<Statement>, e: RowEvent)
    ensures e in Exec(BEGUN, statements).events <==> Mutate(e.table, e.change) in statements
    decreases |statements|
  {
    if |statements| > 0 {
      var n := |statements| - 1;
      ExecSnoc(BEGUN, statements);
      EventsAt(statements[..n], e);
      assert statements == statements[..n] + [statements[n]];
    }
  }

  /** The commit goes through exactly when no statement raised and every subject of every
      guarded change the transaction made is recorded by an intent it wrote, before the
      change or after it, and did not withdraw. */
  lemma CommitsIffEveryChangeRecorded(specs: map<string, TriggerSpec>, statements: seq<Statement>)
    ensures Commits(specs, Exec(BEGUN, statements)) <==>
              && (forall k :: !Raises(statements, k))
              && forall table, change, subject ::
                   Mutate(table, change) in statements && table in specs && ActionFor(specs[table], change) != "" && subject in Subjects(change) ==>
                     WrittenAbout(statements, specs[table], change, subject)
  {
    RaisesIff(statements);
    var tx := Exec(BEGUN, statements);
    if !tx.failed {
      forall table, change | Mutate(table, change) in statements
        ensures EventPasses(specs, RowEvent(table, change), tx.intents) <==>
                  (table in specs && ActionFor(specs[table], change) != "" ==>
                     forall subject :: subject in Subjects(change) ==> WrittenAbout(statements, specs[table], change, subject))
      {
        if table in specs {
          FiresIffEverySubjectRecorded(specs[table], change, tx.intents);
          forall subject | subject in Subjects(change)
            ensures WrittenAbout(statements, specs[table], change, subject) <==> exists id :: Recorded(tx.intents, id, specs[table], change, subject)
          {
            WrittenIsRecorded(statements, specs[table], change, subject);
          }
          if ActionFor(specs[table], change) != "" && Fires(specs[table], change, tx.intents) {
            forall subject | subject in Subjects(change) ensures WrittenAbout(statements, specs[table], change, subject) {
              FiresRecords(specs[table], change, tx.intents, subject);
            }
          }
        }
      }
      forall table, change ensures RowEvent(table, change) in tx.events <==> Mutate(table, change) in statements {
        EventsAt(statements, RowEvent(table, change));
      }
      if Commits(specs, tx) {
        forall table, change | Mutate(table, change) in statements ensures EventPasses(specs, RowEvent(table, change), tx.intents) {
          var i :| 0 <= i < |tx.events| && tx.events[i] == RowEvent(table, change);
        }
      } else {
        var i :| 0 <= i < |tx.events| && !EventPasses(specs, tx.events[i], tx.intents);
        assert tx.events[i] in tx.events;
        assert Mutate(tx.events[i].table, tx.events[i].change) in statements;
      }
    }
  }

  ghost predicate WrittenAbout(statements: seq<Statement>, spec: TriggerSpec, change: Change, subject: Option<string>)
  {
    subject.Some? && exists j, id, intent ::
      Stands(statements, j, id, intent) && Records(intent, ActionFor(spec, change), spec.resourceType, subject.value)
  }

  lemma WrittenIsRecorded(statements: seq<Statement>, spec: TriggerSpec, change: Change, subject: Option<string>)
    requires !Exec(BEGUN, statements).failed
    ensures WrittenAbout(statements, spec, change, subject) <==>
              exists id :: Recorded(Exec(BEGUN, statements).intents, id, spec, change, subject)
  {
    var left := Exec(BEGUN, statements).intents;
    if WrittenAbout(statements, spec, change, subject) {
      var j, id, intent :| Stands(statements, j, id, intent) && Records(intent, ActionFor(spec, change), spec.resourceType, subject.value);
      Leaves(statements, id, intent);
      assert Recorded(left, id, spec, change, subject);
    }
    if id :| Recorded(left, id, spec, change, subject) {
      Leaves(statements, id, left[id]);
      var j :| Stands(statements, j, id, left[id]);
    }
  }

  // ---- the whole system ----------------------------------------------------

  /** A committed row event and the intents its own transaction left behind. */
  datatype Mutation = Mutation(event: RowEvent, own: set<P.EventId>)

  datatype System = System(p: P.State, history: seq<Mutation>)

  datatype Act = AppCommit(statements: seq<Statement>) | Other(event: P.Event)

  function Stamped(events: seq<RowEvent>, own: set<P.EventId>): seq<Mutation>
  {
    seq(|events|, i requires 0 <= i < |events| => Mutation(events[i], own))
  }

  ghost predicate SystemStep(s: System, a: Act, s': System, specs: map<string, TriggerSpec>)
  {
    match a
    case AppCommit(statements) =>
      var tx := Exec(BEGUN, statements);
      && Commits(specs, tx)
      && P.Step(s.p, P.Commit(tx.intents), s'.p)
      && s'.history == s.history + Stamped(tx.events, tx.intents.Keys)
    case Other(event) => !event.Commit? && P.Step(s.p, event, s'.p) && s'.history == s.history
  }

  ghost predicate SystemRun(states: seq<System>, acts: seq<Act>, specs: map<string, TriggerSpec>)
  {
    && |states| == |acts| + 1
    && states[0] == System(P.State(map[], map[], map[], map[]), [])
    && forall i :: 0 <= i < |acts| ==> SystemStep(states[i], acts[i], states[i + 1], specs)
  }

  /** Every subject of a guarded, committed change is recorded by its own transaction. */
  ghost predicate Audited(s: System, m: Mutation, specs: map<string, TriggerSpec>)
  {
    && m.own <= s.p.committed.Keys
    && var e := m.event;
       e.table in specs && ActionFor(specs[e.table], e.change) != "" ==>
         forall subject :: subject in Subjects(e.change) ==>
           exists id :: id in m.own && Recorded(s.p.committed, id, specs[e.table], e.change, subject)
  }

  /** History is permanent, so what was audited stays audited. */
  lemma AuditedStands(s: System, s': System, m: Mutation, specs: map<string, TriggerSpec>)
    requires Audited(s, m, specs)
    requires forall id :: id in s.p.committed ==> id in s'.p.committed && s'.p.committed[id] == s.p.committed[id]
    ensures Audited(s', m, specs)
  {
    var e := m.event;
    if e.table in specs && ActionFor(specs[e.table], e.change) != "" {
      forall subject | subject in Subjects(e.change)
        ensures exists id :: id in m.own && Recorded(s'.p.committed, id, specs[e.table], e.change, subject)
      {
        var id :| id in m.own && Recorded(s.p.committed, id, specs[e.table], e.change, subject);
        assert Recorded(s'.p.committed, id, specs[e.table], e.change, subject);
      }
    }
  }

  lemma NewMutationAudited(s: System, tx: Tx, s': System, k: nat, specs: map<string, TriggerSpec>)
    requires Commits(specs, tx) && k < |tx.events| && P.Step(s.p, P.Commit(tx.intents), s'.p)
    ensures Audited(s', Mutation(tx.events[k], tx.intents.Keys), specs)
  {
    var e := tx.events[k];
    assert EventPasses(specs, e, tx.intents);
    if e.table in specs && ActionFor(specs[e.table], e.change) != "" {
      forall subject | subject in Subjects(e.change)
        ensures exists id :: id in tx.intents.Keys && Recorded(s'.p.committed, id, specs[e.table], e.change, subject)
      {
        FiresRecords(specs[e.table], e.change, tx.intents, subject);
        var id :| Recorded(tx.intents, id, specs[e.table], e.change, subject);
        assert Recorded(s'.p.committed, id, specs[e.table], e.change, subject);
      }
    }
  }

  ghost predicate AllAudited(s: System, specs: map<string, TriggerSpec>)
  {
    forall k :: 0 <= k < |s.history| ==> Audited(s, s.history[k], specs)
  }

  lemma AllAuditedStands(s: System, s': System, specs: map<string, TriggerSpec>)
    requires AllAudited(s, specs) && s'.history == s.history
    requires forall id :: id in s.p.committed ==> id in s'.p.committed && s'.p.committed[id] == s.p.committed[id]
    ensures AllAudited(s', specs)
  {
    forall k | 0 <= k < |s'.history| ensures Audited(s', s'.history[k], specs) {
      AuditedStands(s, s', s.history[k], specs);
    }
  }

  lemma AppCommitStaysAudited(s: System, tx: Tx, s': System, specs: map<string, TriggerSpec>)
    requires AllAudited(s, specs) && Commits(specs, tx) && P.Step(s.p, P.Commit(tx.intents), s'.p)
    requires s'.history == s.history + Stamped(tx.events, tx.intents.Keys)
    ensures AllAudited(s', specs)
  {
    forall k | 0 <= k < |s'.history| ensures Audited(s', s'.history[k], specs) {
      if k < |s.history| {
        AuditedStands(s, s', s.history[k], specs);
      } else {
        NewMutationAudited(s, tx, s', k - |s.history|, specs);
      }
    }
  }

  lemma SystemStepKeepsInv(s: System, a: Act, s': System, specs: map<string, TriggerSpec>)
    requires P.Inv(s.p) && AllAudited(s, specs) && SystemStep(s, a, s', specs)
    ensures P.Inv(s'.p) && AllAudited(s', specs)
  {
    match a
    case AppCommit(statements) =>
      var tx := Exec(BEGUN, statements);
      P.StepKeepsInv(s.p, P.Commit(tx.intents), s'.p);
      AppCommitStaysAudited(s, tx, s', specs);
    case Other(event) =>
      P.StepKeepsInv(s.p, event, s'.p);
      forall id | id in s.p.committed ensures id in s'.p.committed && s'.p.committed[id] == s.p.committed[id] {
        P.StepKeepsRecords(s.p, event, s'.p, id);
      }
      AllAuditedStands(s, s', specs);
  }

  lemma {:induction false} SystemRunKeepsInv(states: seq<System>, acts: seq<Act>, specs: map<string, TriggerSpec>, n: nat)
    requires SystemRun(states, acts, specs) && n < |states|
    ensures P.Inv(states[n].p) && AllAudited(states[n], specs)
    decreases n
  {
    if n > 0 {
      SystemRunKeepsInv(states, acts, specs, n - 1);
      SystemStepKeepsInv(states[n - 1], acts[n - 1], states[n], specs);
    }
  }

  /** End to end, at every moment after a guarded change has committed: each subject it
      touched has an intent written by the same transaction, under the pinned action, and
      that intent is pending or its record is at the destination. */
  lemma GuardedMutationAlwaysAccounted(states: seq<System>, acts: seq<Act>, specs: map<string, TriggerSpec>,
                                       n: nat, k: nat, subject: Option<string>)
    requires SystemRun(states, acts, specs) && n < |states| && k < |states[n].history|
    requires var e := states[n].history[k].event;
             e.table in specs && ActionFor(specs[e.table], e.change) != "" && subject in Subjects(e.change)
    ensures subject.Some?
    ensures var m, p := states[n].history[k], states[n].p;
            exists id ::
              && id in m.own && id in p.committed
              && p.committed[id].action == ActionFor(specs[m.event.table], m.event.change)
              && p.committed[id].resourceType == Some(specs[m.event.table].resourceType)
              && p.committed[id].resourceId.Some?
              && LikePattern.SameUpToCase(p.committed[id].resourceId.value, subject.value)
              && (|| (id in p.outbox && p.outbox[id].deliveredAt.None? && p.outbox[id].intent == p.committed[id])
                  || (id in p.destination && p.destination[id] == p.committed[id]))
  {
    SystemRunKeepsInv(states, acts, specs, n);
    var m := states[n].history[k];
    assert Audited(states[n], m, specs);
    var id :| id in m.own && Recorded(states[n].p.committed, id, specs[m.event.table], m.event.change, subject);
    assert P.Accounted(states[n].p, id);
  }
}
