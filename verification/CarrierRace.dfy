/** The platform-administrator carrier under concurrency: grants and revocations as
    interleaved transaction steps over row locks. */
module CarrierRace {
  import opened Common
  import opened Ordering

  type TxId = nat
  type RowId = nat

  /** A row as a statement's snapshot saw it. A stamp's id is the user it names. */
  datatype Ref = Ref(row: RowId, stamp: Stamp)

  datatype Change = Granted(user: string) | Revoked(user: string)

  /** Where a transaction is. Locking has still to lock queue and holds the locks of
      held; Approved has seen keeper resolve; the rest have changed their row. */
  datatype Tx =
    | Locking(user: string, queue: seq<Ref>, held: set<RowId>)
    | Approved(target: RowId, keeper: RowId, held: set<RowId>)
    | Deleted(target: RowId, keeper: RowId, held: set<RowId>, recorded: bool)
    | Inserted(stamp: Stamp, recorded: bool)

  datatype State = State(
    rows: map<RowId, Stamp>,   // committed grants
    users: set<string>,        // principals that resolve
    locks: map<RowId, TxId>,
    txs: map<TxId, Tx>,
    floor: Option<TxId>,       // holder of the advisory lock
    audit: seq<Change>)        // committed intents

  datatype Event =
    | BeginRevoke(tx: TxId, user: string, queue: seq<Ref>)
    | LockNext(tx: TxId)
    | Resolve(tx: TxId, target: RowId, keeper: RowId)
    | Delete(tx: TxId)
    | Insert(tx: TxId, user: string, at: int)
    | WriteIntent(tx: TxId)
    | Commit(tx: TxId, row: RowId)
    | Abort(tx: TxId)
    | AddUser(user: string)
    | RemoveUser(user: string)

  function Held(tx: Tx): set<RowId>
  {
    if tx.Inserted? then {} else tx.held
  }

  /** The snapshot in (granted_at, user_id) order. */
  ghost predicate Snapshot(s: State, queue: seq<Ref>)
  {
    && (forall i, j :: 0 <= i < j < |queue| ==> StampBefore(queue[i].stamp, queue[j].stamp))
    && (forall i :: 0 <= i < |queue| ==> queue[i].row in s.rows && s.rows[queue[i].row] == queue[i].stamp)
    && (forall r :: r in s.rows ==> Ref(r, s.rows[r]) in queue)
  }

  predicate NamesUser(s: State, user: string)
  {
    exists r :: r in s.rows && s.rows[r].id == user
  }

  /** The lock the next step of t waits for. */
  predicate Blocked(s: State, t: TxId)
    requires t in s.txs
  {
    var tx := s.txs[t];
    && tx.Locking? && |tx.queue| > 0
    && tx.queue[0].row in s.locks && s.locks[tx.queue[0].row] != t
  }

  function Release(s: State, t: TxId): State
  {
    s.(locks := map r | r in s.locks && s.locks[r] != t :: s.locks[r],
       txs := s.txs - {t},
       floor := if s.floor == Some(t) then None else s.floor)
  }

  /** With serialized set, every revocation and every removal of a user runs inside
      Serialize; without it nobody removes users. A removal makes the application's own
      floor check. */
  ghost predicate Step(s: State, e: Event, s': State, serialized: bool)
  {
    match e
    case BeginRevoke(t, user, queue) =>
      && t !in s.txs && Snapshot(s, queue)
      && (serialized ==> s.floor.None?)
      && s' == s.(txs := s.txs[t := Locking(user, queue, {})], floor := if serialized then Some(t) else s.floor)
    case LockNext(t) =>
      && t in s.txs && s.txs[t].Locking? && |s.txs[t].queue| > 0 && !Blocked(s, t)
      && s' == Locked(s, t)
    // The predicate accepted on the strength of a remaining grant that resolved.
    case Resolve(t, target, keeper) =>
      && t in s.txs && s.txs[t].Locking? && |s.txs[t].queue| == 0
      && target in s.txs[t].held && target in s.rows && s.rows[target].id == s.txs[t].user
      && keeper in s.txs[t].held && keeper in s.rows && s.rows[keeper].id != s.txs[t].user
      && s.rows[keeper].id in s.users
      && s' == s.(txs := s.txs[t := Approved(target, keeper, s.txs[t].held)])
    case Delete(t) =>
      && t in s.txs && s.txs[t].Approved?
      && s' == s.(txs := s.txs[t := Deleted(s.txs[t].target, s.txs[t].keeper, s.txs[t].held, false)])
    // ON CONFLICT DO NOTHING: waits out an uncommitted row for the same user.
    case Insert(t, user, at) =>
      && t !in s.txs && !NamesUser(s, user)
      && (forall q :: q in s.txs && s.txs[q].Inserted? ==> s.txs[q].stamp.id != user)
      && s' == s.(txs := s.txs[t := Inserted(Stamp(at, user), false)])
    case WriteIntent(t) =>
      && t in s.txs && (s.txs[t].Deleted? || s.txs[t].Inserted?)
      && s' == s.(txs := s.txs[t := Recorded(s.txs[t])])
    case Commit(t, row) => t in s.txs && Commits(s, t, row, s')
    case Abort(t) => t in s.txs && s' == Release(s, t)
    case AddUser(user) => s' == s.(users := s.users + {user})
    case RemoveUser(user) =>
      && serialized && s.floor.None?
      && (exists r :: r in s.rows && s.rows[r].id in s.users - {user})
      && s' == s.(users := s.users - {user})
  }

  function Recorded(tx: Tx): Tx
    requires tx.Deleted? || tx.Inserted?
  {
    match tx
    case Deleted(target, keeper, held, _) => Deleted(target, keeper, held, true)
    case Inserted(stamp, _) => Inserted(stamp, true)
  }

  /** A row that died since the snapshot is passed over; a live one is locked. */
  function Locked(s: State, t: TxId): State
    requires t in s.txs && s.txs[t].Locking? && |s.txs[t].queue| > 0
  {
    var tx := s.txs[t];
    var r := tx.queue[0].row;
    if r in s.rows
    then s.(locks := s.locks[r := t], txs := s.txs[t := Locking(tx.user, tx.queue[1..], tx.held + {r})])
    else s.(txs := s.txs[t := Locking(tx.user, tx.queue[1..], tx.held)])
  }

  /** What a transaction adds to the trail when it commits: the intent, if it wrote one. */
  function Written(recorded: bool, change: Change): seq<Change>
  {
    if recorded then [change] else []
  }

  ghost predicate Commits(s: State, t: TxId, row: RowId, s': State)
    requires t in s.txs
  {
    match s.txs[t]
    case Deleted(target, _, _, recorded) =>
      && recorded && target in s.rows
      && s' == Release(s, t).(rows := s.rows - {target}, audit := s.audit + Written(recorded, Revoked(s.rows[target].id)))
    case Inserted(stamp, recorded) =>
      && recorded && row !in s.rows && (forall q, i :: q in s.txs && s.txs[q].Locking? && 0 <= i < |s.txs[q].queue| ==> s.txs[q].queue[i].row != row)
      && s' == Release(s, t).(rows := s.rows[row := stamp], audit := s.audit + Written(recorded, Granted(stamp.id)))
    case _ => false
  }

  // ---- the invariant -------------------------------------------------------

  /** Some grant resolves to a principal that exists. */
  ghost predicate Exercisable(s: State)
  {
    exists r :: r in s.rows && s.rows[r].id in s.users
  }

  ghost predicate UserUnique(s: State)
  {
    && (forall r, q :: r in s.rows && q in s.rows && s.rows[r].id == s.rows[q].id ==> r == q)
    && (forall t, r :: t in s.txs && s.txs[t].Inserted? && r in s.rows ==> s.rows[r].id != s.txs[t].stamp.id)
    && (forall t, q :: t in s.txs && q in s.txs && s.txs[t].Inserted? && s.txs[q].Inserted? && s.txs[t].stamp.id == s.txs[q].stamp.id ==> t == q)
  }

  /** A transaction holds exactly the locks recorded for it, on live rows. */
  ghost predicate LocksAgree(s: State)
  {
    && (forall t, r :: t in s.txs && r in Held(s.txs[t]) ==> r in s.locks && s.locks[r] == t && r in s.rows)
    && (forall r :: r in s.locks ==> s.locks[r] in s.txs && r in Held(s.txs[s.locks[r]]))
  }

  /** What still has to be locked comes after everything held, in order. */
  ghost predicate QueueInv(s: State, tx: Tx)
  {
    tx.Locking? ==>
      && (forall i, j :: 0 <= i < j < |tx.queue| ==> StampBefore(tx.queue[i].stamp, tx.queue[j].stamp))
      && (forall r, i :: r in tx.held && r in s.rows && 0 <= i < |tx.queue| ==> StampBefore(s.rows[r], tx.queue[i].stamp))
      && (forall i :: 0 <= i < |tx.queue| && tx.queue[i].row in s.rows ==> s.rows[tx.queue[i].row] == tx.queue[i].stamp)
  }

  /** The keeper of an accepted revocation is locked and still resolves. */
  ghost predicate WitnessInv(s: State, tx: Tx)
  {
    tx.Approved? || tx.Deleted? ==>
      && tx.target in tx.held && tx.keeper in tx.held && tx.target != tx.keeper
      && tx.keeper in s.rows && s.rows[tx.keeper].id in s.users
  }

  ghost predicate TxInv(s: State, tx: Tx)
  {
    QueueInv(s, tx) && WitnessInv(s, tx)
  }

  ghost predicate TxsInv(s: State)
  {
    forall t :: t in s.txs ==> TxInv(s, s.txs[t])
  }

  ghost predicate FloorHeld(s: State, serialized: bool)
  {
    serialized ==> forall t :: t in s.txs && !s.txs[t].Inserted? ==> s.floor == Some(t)
  }

  ghost predicate Inv(s: State, serialized: bool)
  {
    UserUnique(s) && LocksAgree(s) && TxsInv(s) && FloorHeld(s, serialized)
  }

  ghost predicate Initial(s: State)
  {
    s.txs == map[] && s.locks == map[] && s.floor.None? && s.rows == map[] && s.audit == []
  }

  lemma UserUniqueKeptByCommit(s: State, t: TxId, row: RowId, s': State)
    requires UserUnique(s) && t in s.txs && Commits(s, t, row, s')
    ensures UserUnique(s')
  {
  }

  /** Fewer rows and fewer pending inserts cannot clash. */
  lemma UserUniqueShrinks(s: State, s': State)
    requires UserUnique(s) && s'.rows == s.rows
    requires forall t :: t in s'.txs && s'.txs[t].Inserted? ==> t in s.txs && s.txs[t].Inserted? && s.txs[t].stamp == s'.txs[t].stamp
    ensures UserUnique(s')
  {
  }

  lemma UserUniqueKept(s: State, e: Event, s': State, serialized: bool)
    requires UserUnique(s) && Step(s, e, s', serialized)
    ensures UserUnique(s')
  {
    match e
    case Commit(t, row) => UserUniqueKeptByCommit(s, t, row, s');
    case Insert(_, _, _) =>
    case _ => UserUniqueShrinks(s, s');
  }

  lemma FloorHeldKept(s: State, e: Event, s': State, serialized: bool)
    requires FloorHeld(s, serialized) && Step(s, e, s', serialized)
    ensures FloorHeld(s', serialized)
  {
  }

  lemma HeldApart(s: State, t: TxId, q: TxId)
    requires LocksAgree(s) && t in s.txs && q in s.txs && t != q
    ensures Held(s.txs[t]) !! Held(s.txs[q])
  {
    forall r | r in Held(s.txs[t]) ensures r !in Held(s.txs[q]) {
      assert s.locks[r] == t;
    }
  }

  /** A transaction that changes state without touching its locks. */
  lemma LocksKeptBySameHeld(s: State, s': State)
    requires LocksAgree(s) && s'.locks == s.locks && s'.rows == s.rows && s.txs.Keys <= s'.txs.Keys
    requires forall t :: t in s'.txs ==> Held(s'.txs[t]) == if t in s.txs then Held(s.txs[t]) else {}
    ensures LocksAgree(s')
  {
  }

  lemma LocksKeptByLock(s: State, t: TxId)
    requires LocksAgree(s) && t in s.txs && s.txs[t].Locking? && |s.txs[t].queue| > 0 && !Blocked(s, t)
    ensures LocksAgree(Locked(s, t))
  {
    var s', r := Locked(s, t), s.txs[t].queue[0].row;
    if r in s.rows {
      forall q, x | q in s'.txs && x in Held(s'.txs[q]) ensures x in s'.locks && s'.locks[x] == q && x in s'.rows {
        if q != t || x != r { assert x in Held(s.txs[q]); }
      }
    }
  }

  lemma LocksKeptByRelease(s: State, t: TxId)
    requires LocksAgree(s) && t in s.txs
    ensures LocksAgree(Release(s, t))
  {
    var s' := Release(s, t);
    forall q, x | q in s'.txs && x in Held(s'.txs[q]) ensures x in s'.locks && s'.locks[x] == q && x in s'.rows {
      assert x in Held(s.txs[q]);
    }
  }

  lemma LocksKeptByCommit(s: State, t: TxId, row: RowId, s': State)
    requires LocksAgree(s) && t in s.txs && TxInv(s, s.txs[t]) && Commits(s, t, row, s')
    ensures LocksAgree(s')
  {
    LocksKeptByRelease(s, t);
    forall q, x | q in s'.txs && x in Held(s'.txs[q]) ensures x in s'.locks && s'.locks[x] == q && x in s'.rows {
      assert x in Held(Release(s, t).txs[q]);
      HeldApart(s, t, q);
    }
  }

  lemma LocksKept(s: State, e: Event, s': State, serialized: bool)
    requires LocksAgree(s) && TxsInv(s) && Step(s, e, s', serialized)
    ensures LocksAgree(s')
  {
    match e
    case LockNext(t) => LocksKeptByLock(s, t);
    case Commit(t, row) => assert TxInv(s, s.txs[t]); LocksKeptByCommit(s, t, row, s');
    case Abort(t) => LocksKeptByRelease(s, t);
    case _ => LocksKeptBySameHeld(s, s');
  }

  /** What a transaction relies on stands while its locked rows do, no row changes, no
      queued row comes back from the dead, and its keeper's user stays. */
  lemma TxInvStands(s: State, s': State, tx: Tx)
    requires TxInv(s, tx)
    requires forall r :: r in s.rows && r in s'.rows ==> s'.rows[r] == s.rows[r]
    requires forall r :: r in Held(tx) && r in s.rows ==> r in s'.rows
    requires forall r :: r in Held(tx) && r in s'.rows ==> r in s.rows
    requires tx.Locking? ==> forall i :: 0 <= i < |tx.queue| && tx.queue[i].row in s'.rows ==> tx.queue[i].row in s.rows
    requires !tx.Locking? && !tx.Inserted? ==> tx.keeper in s.rows && (s.rows[tx.keeper].id in s.users ==> s.rows[tx.keeper].id in s'.users)
    ensures TxInv(s', tx)
  {
  }

  lemma LockedTxInv(s: State, t: TxId)
    requires t in s.txs && s.txs[t].Locking? && |s.txs[t].queue| > 0 && TxInv(s, s.txs[t])
    ensures TxInv(Locked(s, t), Locked(s, t).txs[t])
  {
  }

  lemma TxsKeptByOwnStep(s: State, e: Event, s': State, serialized: bool)
    requires TxsInv(s) && Step(s, e, s', serialized)
    requires e.BeginRevoke? || e.LockNext? || e.Resolve? || e.Delete? || e.Insert? || e.WriteIntent?
    ensures TxsInv(s')
  {
    forall q | q in s'.txs ensures TxInv(s', s'.txs[q]) {
      if q != e.tx {
        TxInvStands(s, s', s.txs[q]);
      } else {
        if e.LockNext? { LockedTxInv(s, q); }
        if q in s.txs { assert TxInv(s, s.txs[q]); }
      }
    }
  }

  lemma TxsKeptByCommit(s: State, t: TxId, row: RowId, s': State)
    requires LocksAgree(s) && TxsInv(s) && t in s.txs && Commits(s, t, row, s')
    ensures TxsInv(s')
  {
    assert TxInv(s, s.txs[t]);
    forall q | q in s'.txs ensures TxInv(s', s'.txs[q]) {
      HeldApart(s, t, q);
      TxInvStands(s, s', s.txs[q]);
    }
  }

  lemma TxsKept(s: State, e: Event, s': State, serialized: bool)
    requires LocksAgree(s) && TxsInv(s) && FloorHeld(s, serialized) && Step(s, e, s', serialized)
    ensures TxsInv(s')
  {
    match e
    case Commit(t, row) => TxsKeptByCommit(s, t, row, s');
    case Abort(t) => forall q | q in s'.txs ensures TxInv(s', s'.txs[q]) { TxInvStands(s, s', s.txs[q]); }
    case AddUser(_) => forall q | q in s'.txs ensures TxInv(s', s'.txs[q]) { TxInvStands(s, s', s.txs[q]); }
    case RemoveUser(_) => forall q | q in s'.txs ensures TxInv(s', s'.txs[q]) { }
    case _ => TxsKeptByOwnStep(s, e, s', serialized);
  }

  lemma StepKeepsInv(s: State, e: Event, s': State, serialized: bool)
    requires Inv(s, serialized) && Step(s, e, s', serialized)
    ensures Inv(s', serialized)
  {
    UserUniqueKept(s, e, s', serialized);
    LocksKept(s, e, s', serialized);
    TxsKept(s, e, s', serialized);
    FloorHeldKept(s, e, s', serialized);
  }

  // ---- the floor -----------------------------------------------------------

  lemma CommitKeepsFloor(s: State, t: TxId, row: RowId, s': State, r: RowId)
    requires t in s.txs && TxInv(s, s.txs[t]) && Commits(s, t, row, s')
    requires r in s.rows && s.rows[r].id in s.users
    ensures Exercisable(s')
  {
    match s.txs[t]
    case Deleted(target, keeper, _, _) => assert keeper in s'.rows && s'.rows[keeper] == s.rows[keeper];
    case Inserted(_, _) => assert r in s'.rows && s'.rows[r] == s.rows[r];
    case _ =>
  }

  /** One step cannot take the last exercisable administrator away: a committed
      revocation leaves its keeper behind, still locked and still resolving. */
  lemma StepKeepsFloor(s: State, e: Event, s': State, serialized: bool)
    requires TxsInv(s) && Step(s, e, s', serialized) && Exercisable(s)
    ensures Exercisable(s')
  {
    var r :| r in s.rows && s.rows[r].id in s.users;
    match e
    case Commit(t, row) => CommitKeepsFloor(s, t, row, s', r);
    case RemoveUser(user) =>
      var keep :| keep in s.rows && s.rows[keep].id in s.users - {user};
      assert keep in s'.rows;
    case _ => assert r in s'.rows && s'.rows[r] == s.rows[r];
  }

  ghost predicate Run(states: seq<State>, events: seq<Event>, serialized: bool)
  {
    && |states| == |events| + 1 && Initial(states[0])
    && forall i :: 0 <= i < |events| ==> Step(states[i], events[i], states[i + 1], serialized)
  }

  lemma {:induction false} RunKeepsInv(states: seq<State>, events: seq<Event>, serialized: bool, n: nat)
    requires Run(states, events, serialized) && n < |states|
    ensures Inv(states[n], serialized)
    decreases n
  {
    if n > 0 {
      RunKeepsInv(states, events, serialized, n - 1);
      StepKeepsInv(states[n - 1], events[n - 1], states[n], serialized);
    }
  }

  lemma SafeStep(s: State, e: Event, s': State, serialized: bool)
    requires Inv(s, serialized) && Exercisable(s) && Step(s, e, s', serialized)
    ensures Inv(s', serialized) && Exercisable(s')
  {
    StepKeepsInv(s, e, s', serialized);
    StepKeepsFloor(s, e, s', serialized);
  }

  /** In every interleaving of grants and revocations, once some grant resolves to an
      existing user, some grant does ever after. */
  lemma {:induction false} FloorHolds(states: seq<State>, events: seq<Event>, serialized: bool, m: nat, n: nat)
    requires Run(states, events, serialized) && m <= n < |states| && Exercisable(states[m])
    ensures Inv(states[n], serialized) && Exercisable(states[n])
    decreases n
  {
    if m == n {
      RunKeepsInv(states, events, serialized, n);
    } else {
      FloorHolds(states, events, serialized, m, n - 1);
      SafeStep(states[n - 1], events[n - 1], states[n], serialized);
    }
  }

  // ---- the audit trail -----------------------------------------------------

  function Applied(before: set<string>, c: Change): set<string>
  {
    match c
    case Granted(user) => before + {user}
    case Revoked(user) => before - {user}
  }

  /** Who administers, according to the trail alone. */
  function Replay(audit: seq<Change>): set<string>
  {
    if |audit| == 0 then {} else Applied(Replay(audit[..|audit| - 1]), audit[|audit| - 1])
  }

  function Administrators(s: State): set<string>
  {
    set r | r in s.rows :: s.rows[r].id
  }

  lemma ReplaySnoc(audit: seq<Change>, c: Change)
    ensures Replay(audit + [c]) == Applied(Replay(audit), c)
  {
    assert (audit + [c])[..|audit|] == audit;
  }

  lemma AdministratorsLose(s: State, target: RowId)
    requires UserUnique(s) && target in s.rows
    ensures Administrators(s.(rows := s.rows - {target})) == Administrators(s) - {s.rows[target].id}
  {
    var s' := s.(rows := s.rows - {target});
    forall user | user in Administrators(s) && user != s.rows[target].id ensures user in Administrators(s') {
      var r :| r in s.rows && s.rows[r].id == user;
      assert r in s'.rows;
    }
  }

  lemma AdministratorsGain(s: State, row: RowId, stamp: Stamp)
    requires row !in s.rows
    ensures Administrators(s.(rows := s.rows[row := stamp])) == Administrators(s) + {stamp.id}
  {
    var s' := s.(rows := s.rows[row := stamp]);
    assert s'.rows[row] == stamp;
    forall r | r in s.rows ensures r in s'.rows && s'.rows[r] == s.rows[r] { }
  }

  ghost predicate Explained(s: State)
  {
    Replay(s.audit) == Administrators(s)
  }

  lemma StepStaysExplained(s: State, e: Event, s': State, serialized: bool)
    requires UserUnique(s) && Explained(s) && Step(s, e, s', serialized)
    ensures Explained(s')
  {
    if e.Commit? {
      match s.txs[e.tx]
      case Deleted(target, _, _, _) =>
        AdministratorsLose(s, target);
        ReplaySnoc(s.audit, Revoked(s.rows[target].id));
      case Inserted(stamp, _) =>
        AdministratorsGain(s, e.row, stamp);
        ReplaySnoc(s.audit, Granted(stamp.id));
      case _ =>
    }
  }

  /** Every change of the carrier is in the committed trail and the trail has nothing
      else: it replays to the carrier exactly, at every moment. */
  lemma {:induction false} TrailExplainsCarrier(states: seq<State>, events: seq<Event>, serialized: bool, n: nat)
    requires Run(states, events, serialized) && n < |states|
    ensures UserUnique(states[n]) && Explained(states[n])
    decreases n
  {
    if n > 0 {
      TrailExplainsCarrier(states, events, serialized, n - 1);
      UserUniqueKept(states[n - 1], events[n - 1], states[n], serialized);
      StepStaysExplained(states[n - 1], events[n - 1], states[n], serialized);
    }
  }

  // ---- no deadlock ---------------------------------------------------------

  predicate LaterFirst(a: Stamp, b: Stamp)
  {
    StampBefore(b, a)
  }

  lemma LaterFirstOrder()
    ensures StrictOrder(LaterFirst)
  {
    StampOrder();
    forall a: Stamp, b: Stamp, c: Stamp | LaterFirst(a, b) && LaterFirst(b, c) ensures LaterFirst(a, c) {
      assert StampBefore(c, b) && StampBefore(b, a);
    }
  }

  function Heads(s: State): set<Stamp>
  {
    set t | t in s.txs && Blocked(s, t) :: s.txs[t].queue[0].stamp
  }

  /** Whoever holds the row t waits for is waiting, if at all, for a later row. */
  lemma HolderWaitsLater(s: State, t: TxId, serialized: bool)
    requires Inv(s, serialized) && t in s.txs && Blocked(s, t)
    ensures var q := s.locks[s.txs[t].queue[0].row];
            && q in s.txs
            && (Blocked(s, q) ==> StampBefore(s.txs[t].queue[0].stamp, s.txs[q].queue[0].stamp))
  {
    var head := s.txs[t].queue[0];
    var q := s.locks[head.row];
    assert head.row in Held(s.txs[q]);
    assert TxInv(s, s.txs[t]) && TxInv(s, s.txs[q]);
  }

  /** The transaction waiting for the latest of the awaited rows. */
  lemma LastWaiter(s: State) returns (t: TxId)
    requires exists q :: q in s.txs && Blocked(s, q)
    ensures t in s.txs && Blocked(s, t)
    ensures forall q :: q in s.txs && Blocked(s, q) ==> !StampBefore(s.txs[t].queue[0].stamp, s.txs[q].queue[0].stamp)
  {
    var any :| any in s.txs && Blocked(s, any);
    assert s.txs[any].queue[0].stamp in Heads(s);
    LaterFirstOrder();
    var last := LeastOf(Heads(s), LaterFirst);
    t :| t in s.txs && Blocked(s, t) && s.txs[t].queue[0].stamp == last;
    forall q | q in s.txs && Blocked(s, q) ensures !StampBefore(last, s.txs[q].queue[0].stamp) {
      var other := s.txs[q].queue[0].stamp;
      assert other in Heads(s);
      NotBothWays(last, other);
    }
  }

  lemma NotBothWays(a: Stamp, b: Stamp)
    ensures a == b || LaterFirst(a, b) ==> !StampBefore(a, b)
  {
    StampOrder();
  }

  /** Locking in one order means no cycle: while anyone is in a transaction, someone in
      one is not waiting for a lock. */
  lemma SomeoneCanMove(s: State, serialized: bool)
    requires Inv(s, serialized) && s.txs != map[]
    ensures exists t :: t in s.txs && !Blocked(s, t)
  {
    if exists q :: q in s.txs && Blocked(s, q) {
      var t := LastWaiter(s);
      HolderWaitsLater(s, t, serialized);
      assert !Blocked(s, s.locks[s.txs[t].queue[0].row]);
    } else {
      var any :| any in s.txs;
    }
  }

  // ---- an uncontended revocation goes through -------------------------------

  ghost predicate Path(states: seq<State>, events: seq<Event>, serialized: bool)
  {
    && |states| == |events| + 1
    && forall i :: 0 <= i < |events| ==> Step(states[i], events[i], states[i + 1], serialized)
  }

  ghost predicate Reaches(s: State, s': State, serialized: bool)
  {
    exists states, events :: Path(states, events, serialized) && states[0] == s && states[|events|] == s'
  }

  lemma ThenStep(s: State, m: State, e: Event, s': State, serialized: bool)
    requires (s == m || Reaches(s, m, serialized)) && Step(m, e, s', serialized)
    ensures Reaches(s, s', serialized)
  {
    if s == m {
      assert Path([s, s'], [e], serialized);
    } else {
      var a, f :| Path(a, f, serialized) && a[0] == s && a[|f|] == m;
      var states, events := a + [s'], f + [e];
      forall i | 0 <= i < |events| ensures Step(states[i], events[i], states[i + 1], serialized) {
        if i < |f| { assert states[i] == a[i] && states[i + 1] == a[i + 1] && events[i] == f[i]; }
      }
      assert Path(states, events, serialized);
    }
  }

  function RowsOf(queue: seq<Ref>): set<RowId>
  {
    set ref | ref in queue :: ref.row
  }

  /** The carrier with one transaction in it and nobody else about. */
  function Alone(s: State, t: TxId, tx: Tx, floor: Option<TxId>): State
  {
    s.(locks := map r | r in Held(tx) :: t, txs := map[t := tx], floor := floor)
  }

  /** The revocation after it has locked the first k rows of its snapshot. */
  function Holding(s: State, t: TxId, user: string, queue: seq<Ref>, k: nat, floor: Option<TxId>): State
    requires k <= |queue|
  {
    Alone(s, t, Locking(user, queue[k..], RowsOf(queue[..k])), floor)
  }

  lemma LocksOneMore(s: State, t: TxId, user: string, rest: seq<Ref>, held: set<RowId>, floor: Option<TxId>, serialized: bool)
    requires |rest| > 0 && rest[0].row in s.rows
    ensures Step(Alone(s, t, Locking(user, rest, held), floor), LockNext(t),
                 Alone(s, t, Locking(user, rest[1..], held + {rest[0].row}), floor), serialized)
  {
    var now := Alone(s, t, Locking(user, rest, held), floor);
    var next := Alone(s, t, Locking(user, rest[1..], held + {rest[0].row}), floor);
    assert Locked(now, t).locks == next.locks;
    assert Locked(now, t).txs == next.txs;
  }

  lemma HoldingGrows(s: State, t: TxId, user: string, queue: seq<Ref>, k: nat, floor: Option<TxId>)
    requires k < |queue|
    ensures Holding(s, t, user, queue, k + 1, floor) ==
            Alone(s, t, Locking(user, queue[k..][1..], RowsOf(queue[..k]) + {queue[k..][0].row}), floor)
  {
    assert queue[..k + 1] == queue[..k] + [queue[k]] && queue[k..][1..] == queue[k + 1..];
    assert RowsOf(queue[..k + 1]) == RowsOf(queue[..k]) + {queue[k].row};
  }

  lemma BeginsAlone(s: State, t: TxId, user: string, queue: seq<Ref>, floor: Option<TxId>, serialized: bool)
    requires Snapshot(s, queue) && s.txs == map[] && s.locks == map[] && s.floor.None?
    requires floor == if serialized then Some(t) else None
    ensures Step(s, BeginRevoke(t, user, queue), Holding(s, t, user, queue, 0, floor), serialized)
  {
    var next := Holding(s, t, user, queue, 0, floor);
    assert queue[..0] == [] && queue[0..] == queue && RowsOf(queue[..0]) == {};
    assert next.locks == map[] && next.txs == s.txs[t := Locking(user, queue, {})];
  }

  lemma {:induction false} LocksTaken(s: State, t: TxId, user: string, queue: seq<Ref>, k: nat, floor: Option<TxId>, serialized: bool)
    requires k <= |queue| && forall i :: 0 <= i < |queue| ==> queue[i].row in s.rows
    requires Reaches(s, Holding(s, t, user, queue, 0, floor), serialized)
    ensures Reaches(s, Holding(s, t, user, queue, k, floor), serialized)
    decreases k
  {
    if k > 0 {
      LocksTaken(s, t, user, queue, k - 1, floor, serialized);
      LocksOneMore(s, t, user, queue[k - 1..], RowsOf(queue[..k - 1]), floor, serialized);
      HoldingGrows(s, t, user, queue, k - 1, floor);
      ThenStep(s, Holding(s, t, user, queue, k - 1, floor), LockNext(t), Holding(s, t, user, queue, k, floor), serialized);
    }
  }

  lemma HoldsAll(s: State, queue: seq<Ref>)
    requires Snapshot(s, queue)
    ensures RowsOf(queue[..|queue|]) == s.rows.Keys && queue[|queue|..] == []
  {
    assert queue[..|queue|] == queue;
    forall r | r in s.rows ensures r in RowsOf(queue) {
      assert Ref(r, s.rows[r]) in queue;
    }
  }

  function AfterRevoke(s: State, target: RowId): State
    requires target in s.rows
  {
    s.(rows := s.rows - {target}, audit := s.audit + [Revoked(s.rows[target].id)])
  }

  lemma CommitEnds(s: State, t: TxId, target: RowId, keeper: RowId, floor: Option<TxId>, serialized: bool)
    requires s.txs == map[] && s.locks == map[] && s.floor.None? && floor in {None, Some(t)} && target in s.rows
    ensures Step(Alone(s, t, Deleted(target, keeper, s.rows.Keys, true), floor), Commit(t, target), AfterRevoke(s, target), serialized)
  {
    var w := Alone(s, t, Deleted(target, keeper, s.rows.Keys, true), floor);
    assert Release(w, t).txs == map[] && Release(w, t).locks == map[];
  }

  /** Once every row is locked and another administrator resolves, the rest follows. */
  lemma EndingSteps(s: State, t: TxId, user: string, target: RowId, keeper: RowId, floor: Option<TxId>, serialized: bool)
    requires target in s.rows && s.rows[target].id == user
    requires keeper in s.rows && s.rows[keeper].id != user && s.rows[keeper].id in s.users
    requires Reaches(s, Alone(s, t, Locking(user, [], s.rows.Keys), floor), serialized)
    ensures Reaches(s, Alone(s, t, Deleted(target, keeper, s.rows.Keys, true), floor), serialized)
  {
    var h := Alone(s, t, Locking(user, [], s.rows.Keys), floor);
    var a := Alone(s, t, Approved(target, keeper, s.rows.Keys), floor);
    var d := Alone(s, t, Deleted(target, keeper, s.rows.Keys, false), floor);
    ThenStep(s, h, Resolve(t, target, keeper), a, serialized);
    ThenStep(s, a, Delete(t), d, serialized);
    ThenStep(s, d, WriteIntent(t), Alone(s, t, Deleted(target, keeper, s.rows.Keys, true), floor), serialized);
  }

  /** With nobody else about and another grant that resolves, a revocation comes to the
      brink of its commit, every row locked. */
  lemma RevocationReadies(s: State, t: TxId, user: string, queue: seq<Ref>, target: RowId, keeper: RowId,
                          floor: Option<TxId>, serialized: bool)
    requires Snapshot(s, queue) && s.txs == map[] && s.locks == map[] && s.floor.None?
    requires floor == if serialized then Some(t) else None
    requires target in s.rows && s.rows[target].id == user
    requires keeper in s.rows && s.rows[keeper].id != user && s.rows[keeper].id in s.users
    ensures Reaches(s, Alone(s, t, Deleted(target, keeper, s.rows.Keys, true), floor), serialized)
  {
    BeginsAlone(s, t, user, queue, floor, serialized);
    ThenStep(s, s, BeginRevoke(t, user, queue), Holding(s, t, user, queue, 0, floor), serialized);
    LocksTaken(s, t, user, queue, |queue|, floor, serialized);
    HoldsAll(s, queue);
    EndingSteps(s, t, user, target, keeper, floor, serialized);
  }

  /** The floor refuses no more than it must: such a revocation runs to its commit. */
  lemma RevocationCompletes(s: State, t: TxId, user: string, queue: seq<Ref>, target: RowId, keeper: RowId, serialized: bool)
    requires Snapshot(s, queue) && s.txs == map[] && s.locks == map[] && s.floor.None?
    requires target in s.rows && s.rows[target].id == user
    requires keeper in s.rows && s.rows[keeper].id != user && s.rows[keeper].id in s.users
    ensures Reaches(s, s.(rows := s.rows - {target}, audit := s.audit + [Revoked(user)]), serialized)
  {
    var floor := if serialized then Some(t) else None;
    RevocationReadies(s, t, user, queue, target, keeper, floor, serialized);
    CommitEnds(s, t, target, keeper, floor, serialized);
    ThenStep(s, Alone(s, t, Deleted(target, keeper, s.rows.Keys, true), floor), Commit(t, target), AfterRevoke(s, target), serialized);
  }

  function AfterGrant(s: State, row: RowId, stamp: Stamp): State
  {
    s.(rows := s.rows[row := stamp], audit := s.audit + [Granted(stamp.id)])
  }

  lemma GrantEnds(s: State, t: TxId, row: RowId, stamp: Stamp, serialized: bool)
    requires s.txs == map[] && s.locks == map[] && s.floor.None? && row !in s.rows
    ensures Step(Alone(s, t, Inserted(stamp, true), None), Commit(t, row), AfterGrant(s, row, stamp), serialized)
  {
    var w := Alone(s, t, Inserted(stamp, true), None);
    assert Release(w, t).txs == map[] && Release(w, t).locks == map[];
  }

  /** With nobody else about, a grant to a user who has none runs to its commit. */
  lemma GrantCompletes(s: State, t: TxId, row: RowId, stamp: Stamp, serialized: bool)
    requires s.txs == map[] && s.locks == map[] && s.floor.None? && row !in s.rows && !NamesUser(s, stamp.id)
    ensures Reaches(s, AfterGrant(s, row, stamp), serialized)
  {
    var inserted := Alone(s, t, Inserted(stamp, false), None);
    var recorded := Alone(s, t, Inserted(stamp, true), None);
    assert inserted.locks == s.locks && inserted.txs == s.txs[t := Inserted(stamp, false)];
    ThenStep(s, s, Insert(t, stamp.id, stamp.at), inserted, serialized);
    assert recorded.txs == inserted.txs[t := Inserted(stamp, true)];
    ThenStep(s, inserted, WriteIntent(t), recorded, serialized);
    GrantEnds(s, t, row, stamp, serialized);
    ThenStep(s, recorded, Commit(t, row), AfterGrant(s, row, stamp), serialized);
  }

  lemma PathsJoin(s: State, m: State, s': State, serialized: bool)
    requires Reaches(s, m, serialized) && Reaches(m, s', serialized)
    ensures Reaches(s, s', serialized)
  {
    var a, e :| Path(a, e, serialized) && a[0] == s && a[|e|] == m;
    var b, f :| Path(b, f, serialized) && b[0] == m && b[|f|] == s';
    var states, events := a + b[1..], e + f;
    forall i | 0 <= i < |events| ensures Step(states[i], events[i], states[i + 1], serialized) {
      if i < |e| {
        assert states[i] == a[i] && states[i + 1] == a[i + 1] && events[i] == e[i];
      } else {
        assert states[i] == b[i - |e|] && states[i + 1] == b[i - |e| + 1] && events[i] == f[i - |e|];
      }
    }
    assert Path(states, events, serialized);
  }

  // ---- why Serialize exists -------------------------------------------------

  const START := State(map[], {"a", "b"}, map[], map[], None, [])
  const FIRST := Stamp(0, "a")
  const SECOND := Stamp(1, "b")
  const TWO := State(map[0 := FIRST, 1 := SECOND], {"a", "b"}, map[], map[], None, [Granted("a"), Granted("b")])
  const BRINK := Alone(TWO, 7, Deleted(0, 1, {0, 1}, true), None)

  lemma TwoGrants()
    ensures Initial(START) && Reaches(START, TWO, false)
  {
    var one := AfterGrant(START, 0, FIRST);
    GrantCompletes(START, 1, 0, FIRST, false);
    assert one.rows == map[0 := FIRST] && "a" != "b";
    GrantCompletes(one, 1, 1, SECOND, false);
    assert AfterGrant(one, 1, SECOND).rows == TWO.rows;
    assert AfterGrant(one, 1, SECOND) == TWO;
    PathsJoin(START, one, TWO, false);
  }

  lemma OnTheBrink()
    ensures Reaches(START, BRINK, false)
  {
    TwoGrants();
    var queue := [Ref(0, FIRST), Ref(1, SECOND)];
    assert Snapshot(TWO, queue) by {
      assert queue[0] == Ref(0, FIRST) && queue[1] == Ref(1, SECOND);
    }
    assert "a" != "b";
    RevocationReadies(TWO, 7, "a", queue, 0, 1, None, false);
    assert TWO.rows.Keys == {0, 1};
    PathsJoin(START, TWO, BRINK, false);
  }

  /** A removal outside Serialize, though it finds another exercisable administrator, can
      race a revocation that has already resolved its keeper: a run of grants and a
      revocation reaches a state in which the removal passes its check and the commit
      that follows leaves nobody. */
  lemma RemovalOutsideSerializeBreaksFloor() returns (states: seq<State>, events: seq<Event>, s': State)
    ensures Run(states, events, false)
    ensures var s := states[|events|];
            && Exercisable(s)
            && (exists r :: r in s.rows && s.rows[r].id in s.users - {"b"})
            && 7 in s.txs && Commits(s.(users := s.users - {"b"}), 7, 0, s')
    ensures !Exercisable(s')
  {
    OnTheBrink();
    states, events :| Path(states, events, false) && states[0] == START && states[|events|] == BRINK;
    assert Run(states, events, false) by { assert Initial(START); }
    var mid := BRINK.(users := BRINK.users - {"b"});
    assert "a" != "b" && mid.users == {"a"};
    assert 0 in BRINK.rows && BRINK.rows[0].id in BRINK.users - {"b"};
    s' := Release(mid, 7).(rows := mid.rows - {0}, audit := mid.audit + [Revoked("a")]);
    assert Commits(mid, 7, 0, s');
  }
}
