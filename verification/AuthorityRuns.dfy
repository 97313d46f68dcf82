/** Runs that mix membership reductions and role-template writes. */
module AuthorityRuns {
  import opened Common
  import opened Scopes
  import opened IdentityDb
  import opened OrgScopes
  import AuthorityReduction
  import opened TemplateReconcile
  import opened TemplateWrite

  /** The tables, and the unfinished reconciliation a caller may resume. */
  datatype State = State(db: Db, pending: Option<(Job, Option<Principal>)>)

  datatype Event =
    | Reduction(reduction: AuthorityReduction.Reduction, scope: OrgScope, red: AuthorityReduction.Reduced)
    | Aborted
    | KeyChange(keys: map<string, ApiKey>)
    | Join(p: Principal, template: Option<string>)
    | WriteLeg(id: string, change: Change, opts: Options, w: Written, mid: Db)
    | SweepFailed(id: string, change: Change, opts: Options, reached: Option<Principal>)

  /** A write starts from the beginning, or resumes the reconciliation of the same
      change with nothing in between. */
  ghost predicate Continues(s: State, job: Job, after: Option<Principal>)
  {
    after.None? || s.pending == Some((job, after))
  }

  ghost predicate Step(s: State, e: Event, s': State, pairs: ReadWritePairs)
  {
    match e
    case Reduction(r, scope, red) =>
      AuthorityReduction.CommittedAs(s.db, s'.db, r, scope, pairs, red) && s'.pending.None?
    case Aborted => s' == s
    // Keys minted, re-scoped or deleted: no key is given more than its owner holds then.
    // It ends any chain in progress.
    case KeyChange(keys) =>
      && s' == State(s.db.(keys := keys), None)
      && (forall id :: id in keys && !(id in s.db.keys && s.db.keys[id] == keys[id]) ==> Backed(s.db, keys[id], pairs))
    // A new membership only adds authority.
    case Join(p, template) =>
      p !in s.db.members && s' == State(s.db.(members := s.db.members[p := template]), None)
    case WriteLeg(id, change, opts, w, mid) =>
      && Writable(s.db, id) && w.reconciled.Some?
      && Continues(s, Job(id, Proposed(change), pairs), opts.after)
      && WriteEffect(s.db, mid, s'.db, id, change, pairs, opts, w)
      && s'.pending == (if w.reconciled.value.done then None
                        else Some((Job(id, Proposed(change), pairs), w.reconciled.value.cursor)))
    case SweepFailed(id, change, opts, reached) =>
      && PartlySwept(s.db, s'.db, Job(id, Proposed(change), pairs), opts.after, reached)
      && s'.pending.None?
  }

  ghost predicate Inv(s: State, pairs: ReadWritePairs)
  {
    && KeysBacked(s.db, pairs)
    && (s.pending.Some? ==> SweptUpTo(s.db, s.pending.value.0, s.pending.value.1))
  }

  lemma KeyChangeKeepsBacked(db: Db, keys: map<string, ApiKey>, pairs: ReadWritePairs)
    requires KeysBacked(db, pairs)
    requires forall id :: id in keys && !(id in db.keys && db.keys[id] == keys[id]) ==> Backed(db, keys[id], pairs)
    ensures KeysBacked(db.(keys := keys), pairs)
  {
    var db' := db.(keys := keys);
    forall id | id in keys ensures Backed(db', keys[id], pairs) {
      assert Backed(db, keys[id], pairs);
    }
  }

  /** Whoever had no membership had no scopes, so his keys asked for none. */
  lemma JoinKeepsBacked(db: Db, p: Principal, template: Option<string>, pairs: ReadWritePairs)
    requires KeysBacked(db, pairs) && p !in db.members
    ensures KeysBacked(db.(members := db.members[p := template]), pairs)
  {
    var db' := db.(members := db.members[p := template]);
    forall id | id in db.keys ensures Backed(db', db.keys[id], pairs) {
      assert Backed(db, db.keys[id], pairs);
      var key := db.keys[id];
      if key.user == Some(p.user) && key.org == p.org {
        assert CurrentScopes(db, p) == [];
        if |key.scopes| > 0 { assert HasScope([], key.scopes[0], pairs); }
      }
    }
  }

  lemma StepKeepsInv(s: State, e: Event, s': State, pairs: ReadWritePairs)
    requires Inv(s, pairs) && Step(s, e, s', pairs)
    ensures Inv(s', pairs)
  {
    match e
    case Reduction(r, scope, red) =>
      AuthorityReduction.ReductionKeepsKeysBacked(s.db, s'.db, r, scope, pairs, red);
    case Aborted =>
    case KeyChange(keys) => KeyChangeKeepsBacked(s.db, keys, pairs);
    case Join(p, template) => JoinKeepsBacked(s.db, p, template, pairs);
    case WriteLeg(id, change, opts, w, mid) =>
      var job := Job(id, Proposed(change), pairs);
      var r := w.reconciled.value;
      SweepKeepsKeysBacked(s.db, Unretained(s.db, Covered(s.db, job, opts, r), job), pairs);
      if r.done {
        CompletedWriteKeepsKeysBacked(s.db, mid, id, change, pairs, opts, r);
      } else {
        LegExtendsSwept(s.db, mid, job, opts, r);
      }
    case SweepFailed(id, change, opts, reached) =>
      var job := Job(id, Proposed(change), pairs);
      SweepKeepsKeysBacked(s.db, Unretained(s.db, Span(s.db, id, opts.after, reached), job), pairs);
  }

  ghost predicate Run(states: seq<State>, events: seq<Event>, pairs: ReadWritePairs)
  {
    && |states| == |events| + 1
    && forall i :: 0 <= i < |events| ==> Step(states[i], events[i], states[i + 1], pairs)
  }

  /** No key outlives authority: at every point of every run, each user-owned key is
      retained under its owner's current scopes in that organization. */
  lemma {:induction false} NoKeyOutlivesAuthority(states: seq<State>, events: seq<Event>, pairs: ReadWritePairs, n: nat)
    requires Run(states, events, pairs) && n < |states|
    requires KeysBacked(states[0].db, pairs) && states[0].pending.None?
    ensures Inv(states[n], pairs)
    decreases n
  {
    if n > 0 {
      NoKeyOutlivesAuthority(states, events, pairs, n - 1);
      StepKeepsInv(states[n - 1], events[n - 1], states[n], pairs);
    }
  }
}
