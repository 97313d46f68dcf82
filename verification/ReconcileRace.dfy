/** The reconciliation under concurrency: memberships and keys change between its
    batches and between the statements of one batch (READ COMMITTED). */
module ReconcileRace {
  import opened Common
  import opened IdentityDb
  import opened TemplateReconcile

  /** Where the sweep is: between batches, holding a page planned for some batch size, or
      holding the row locks of the page's keys together with the decision made from them. */
  datatype Pc =
    | Ready
    | Planned(page: seq<Principal>, size: nat)
    | Locked(page: seq<Principal>, size: nat, locked: set<string>, doomed: set<string>)
    | Done

  datatype State = State(db: Db, cursor: Option<Principal>, pc: Pc)

  datatype Event =
    | Environment
    | Plan(size: nat)
    | LockKeys
    | DeleteAndCommit
    | Rollback(resumeAt: Option<Principal>)

  /** Other transactions change anything except the key rows this batch has locked. */
  ghost predicate Respects(s: State, db': Db)
  {
    s.pc.Locked? ==>
      forall id :: id in s.pc.locked && id in s.db.keys ==> id in db'.keys && db'.keys[id] == s.db.keys[id]
  }

  ghost predicate Step(s: State, e: Event, s': State, job: Job)
  {
    match e
    case Environment => s' == s.(db := s'.db) && Respects(s, s'.db)
    // Each call of a chain, so each batch, has the size its caller chose.
    case Plan(size) =>
      var page := PageOf(s.db, job.template, s.cursor, size);
      s.pc.Ready? && size >= 1 && s' == s.(pc := if |page| == 0 then Done else Planned(page, size))
    case LockKeys =>
      s.pc.Planned? &&
      s' == s.(pc := Locked(s.pc.page, s.pc.size, Judged(s.db, PageSet(s.pc.page), job.template),
                            Unretained(s.db, PageSet(s.pc.page), job)))
    case DeleteAndCommit =>
      && s.pc.Locked? && |s.pc.page| > 0
      && s' == State(DeleteKeys(s.db, s.pc.doomed), Some(s.pc.page[|s.pc.page| - 1]),
                     if |s.pc.page| < s.pc.size then Done else Ready)
    // A failed batch changes nothing; its caller resumes from a cursor it already held.
    case Rollback(resumeAt) =>
      !s.pc.Done? && CursorAdvanced(resumeAt, s.cursor) && s' == s.(cursor := resumeAt, pc := Ready)
  }

  ghost predicate Run(states: seq<State>, events: seq<Event>, job: Job)
  {
    && |states| == |events| + 1
    && states[0].pc.Ready?
    && forall i :: 0 <= i < |events| ==> Step(states[i], events[i], states[i + 1], job)
  }

  // ---- what the sweep deletes ---------------------------------------------

  /** The step that took the locks this state holds. */
  ghost predicate LockedAt(states: seq<State>, events: seq<Event>, j: nat, i: nat, job: Job)
  {
    && j < i < |states| && i <= |events| && states[i].pc.Locked?
    && events[j].LockKeys?
    && states[i].pc.doomed == Unretained(states[j].db, PageSet(states[i].pc.page), job)
    && states[i].pc.doomed <= states[i].pc.locked
    && (forall id :: id in states[i].pc.doomed ==>
          id in states[j].db.keys && id in states[i].db.keys && states[i].db.keys[id] == states[j].db.keys[id])
  }

  lemma {:induction false} LocksHaveAnOrigin(states: seq<State>, events: seq<Event>, job: Job, i: nat)
    requires Run(states, events, job) && i < |states| && states[i].pc.Locked?
    ensures exists j :: LockedAt(states, events, j, i, job)
    decreases i
  {
    assert Step(states[i - 1], events[i - 1], states[i], job);
    if events[i - 1].Environment? {
      LocksHaveAnOrigin(states, events, job, i - 1);
      var j :| LockedAt(states, events, j, i - 1, job);
      assert LockedAt(states, events, j, i, job);
    } else {
      assert LockedAt(states, events, i - 1, i, job);
    }
  }

  /** The sweep deletes a key only if, at the locking read, its owner held the template
      and its scopes were unretained; the row has not changed since. */
  lemma DeletesOnlyWhatItJudged(states: seq<State>, events: seq<Event>, job: Job, i: nat, id: string)
    requires Run(states, events, job) && i < |events| && events[i].DeleteAndCommit?
    requires id in states[i].db.keys && id !in states[i + 1].db.keys
    ensures exists j ::
              && 0 <= j < i && events[j].LockKeys?
              && id in Unretained(states[j].db, Holders(states[j].db, job.template), job)
              && states[j].db.keys[id] == states[i].db.keys[id]
  {
    assert Step(states[i], events[i], states[i + 1], job);
    LocksHaveAnOrigin(states, events, job, i);
    var j :| LockedAt(states, events, j, i, job);
    assert id in states[i].pc.doomed;
  }

  // ---- what a finished sweep has deleted ----------------------------------

  /** A key that is there, unretained, in the hands of one holder. */
  ghost predicate Stubborn(db: Db, job: Job, p: Principal, id: string)
  {
    && Holds(db, p, job.template)
    && id in db.keys && db.keys[id].org == p.org && db.keys[id].user == Some(p.user)
    && !Retained(job, db.keys[id])
  }

  /** The sweep has not passed the holder, or has the key in its hands. */
  ghost predicate StillAhead(s: State, p: Principal, id: string)
  {
    match s.pc
    case Ready => Past(s.cursor, p)
    case Planned(page, size) => Past(s.cursor, p) && Ahead(page, size, p)
    case Locked(page, size, _, doomed) => Past(s.cursor, p) && Ahead(page, size, p) && (p in page ==> id in doomed)
    case Done => false
  }

  ghost predicate Ahead(page: seq<Principal>, size: nat, p: Principal)
  {
    |page| > 0 && (p in page || (|page| == size && Past(Some(page[|page| - 1]), p)))
  }

  lemma PlanKeepsAhead(db: Db, job: Job, cursor: Option<Principal>, size: nat, p: Principal)
    requires size >= 1 && Holds(db, p, job.template) && Past(cursor, p)
    ensures Ahead(PageOf(db, job.template, cursor, size), size, p)
  {
    PageFacts(db, job.template, cursor, size);
    assert p in HoldersAfter(db, job.template, cursor);
    var page := PageOf(db, job.template, cursor, size);
    if |page| == size {
      assert p in PageSet(page) <==> !Past(Some(page[|page| - 1]), p);
    }
  }

  lemma StepKeepsAhead(s: State, e: Event, s': State, job: Job, p: Principal, id: string)
    requires Step(s, e, s', job) && StillAhead(s, p, id)
    requires Stubborn(s.db, job, p, id) && Stubborn(s'.db, job, p, id)
    ensures StillAhead(s', p, id)
  {
    match e
    case Environment =>
    case Plan(size) => PlanKeepsAhead(s.db, job, s.cursor, size, p);
    case LockKeys =>
    case DeleteAndCommit =>
    case Rollback(resumeAt) => PastAdvances(resumeAt, s.cursor, p);
  }

  lemma {:induction false} StubbornKeysStayAhead(states: seq<State>, events: seq<Event>, job: Job,
                                                  p: Principal, id: string, n: nat)
    requires Run(states, events, job) && states[0].cursor == None && n < |states|
    requires forall i :: 0 <= i <= n ==> Stubborn(states[i].db, job, p, id)
    ensures StillAhead(states[n], p, id)
    decreases n
  {
    if n > 0 {
      StubbornKeysStayAhead(states, events, job, p, id, n - 1);
      StepKeepsAhead(states[n - 1], events[n - 1], states[n], job, p, id);
    }
  }

  /** When a chain that started at the beginning reports Done, every key that stayed
      unretained, of a principal who held the template throughout, is gone. */
  lemma DoneLeavesNoStubbornKey(states: seq<State>, events: seq<Event>, job: Job,
                                p: Principal, id: string, n: nat)
    requires Run(states, events, job) && states[0].cursor == None
    requires n < |states| && states[n].pc.Done?
    ensures exists i :: 0 <= i <= n && !Stubborn(states[i].db, job, p, id)
  {
    if forall i :: 0 <= i <= n ==> Stubborn(states[i].db, job, p, id) {
      StubbornKeysStayAhead(states, events, job, p, id, n);
      assert false;
    }
  }

  /** The same, said of the key: identifiers are not reused, the principal holds the
      template throughout, and the key is his and unretained while it exists. Then a
      sweep that is Done has outlived it. */
  lemma DoneMeansGone(states: seq<State>, events: seq<Event>, job: Job,
                      p: Principal, id: string, n: nat)
    requires Run(states, events, job) && states[0].cursor == None
    requires n < |states| && states[n].pc.Done?
    requires forall i :: 0 <= i <= n ==> Holds(states[i].db, p, job.template)
    requires forall i :: 0 <= i <= n && id in states[i].db.keys ==> Stubborn(states[i].db, job, p, id)
    requires forall i, j :: 0 <= i <= j <= n && id !in states[i].db.keys ==> id !in states[j].db.keys
    ensures id !in states[n].db.keys
  {
    DoneLeavesNoStubbornKey(states, events, job, p, id, n);
  }
}
