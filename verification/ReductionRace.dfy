/** The authority reduction statement by statement (READ COMMITTED): what its row locks
    keep out, and what they do not. */
module ReductionRace {
  import opened Common
  import opened Scopes
  import opened IdentityDb
  import opened OrgScopes
  import opened AuthorityReduction

  /** The membership rows a reduction has written and not committed: removed when value
      is None, otherwise pointed at the template, if any. */
  datatype Write = Write(user: string, orgs: set<string>, value: Option<Option<string>>)

  /** Where the transaction is: the membership written; the retained scopes read back;
      the keys locked and judged by them; over. */
  datatype Pc =
    | Idle
    | Reduced(w: Write)
    | Looked(w: Write, retained: map<string, seq<Scope>>)
    | Locked(w: Write, retained: map<string, seq<Scope>>, locked: set<string>, doomed: set<string>)
    | Over

  datatype State = State(db: Db, pc: Pc)

  datatype Event =
    | Environment
    | Reduce(reduction: Reduction, scope: OrgScope)
    | LookUp
    | LockKeys
    | DeleteAndCommit
    | Rollback

  // ---- the statements -------------------------------------------------------

  function Affected(w: Write): set<Principal>
  {
    set o | o in w.orgs :: Principal(o, w.user)
  }

  /** The tables as the transaction sees them. */
  function Overlay(db: Db, w: Write): Db
  {
    match w.value
    case None => db.(members := db.members - Affected(w))
    case Some(template) => db.(members := db.members + map p | p in Affected(w) :: template)
  }

  ghost function WriteOf(db: Db, r: Reduction, scope: OrgScope): Write
    requires Apply(db, r, scope).Changed?
  {
    var e := Apply(db, r, scope);
    match r
    case RemoveMember(org, user) => Write(user, {org}, None)
    case SetTemplate(org, user, template) => Write(user, {org}, Some(template))
    case SetTemplateByName(org, user, name) => Write(user, {org}, Some(e.db.members[Principal(org, user)]))
    case RemoveAll(user) => Write(user, e.orgs, None)
  }

  /** retainedScopes: the principal's scopes in each organization after the write. */
  function RetainedScopes(db: Db, w: Write): map<string, seq<Scope>>
  {
    map o | o in w.orgs :: CurrentScopes(Overlay(db, w), Principal(o, w.user))
  }

  function Judged(db: Db, keys: set<string>, retained: map<string, seq<Scope>>, pairs: ReadWritePairs): set<string>
  {
    set id | id in keys && id in db.keys && db.keys[id].org in retained &&
             !AuthorityRetained(db.keys[id].scopes, retained[db.keys[id].org], pairs)
  }

  /** Other transactions change anything but the membership rows this one has written
      and the key rows it has locked. They insert keys as they please. */
  ghost predicate Respects(s: State, db': Db)
  {
    && (s.pc.Reduced? || s.pc.Looked? || s.pc.Locked? ==>
          forall p :: p in Affected(s.pc.w) ==>
            (p in db'.members <==> p in s.db.members) && (p in db'.members ==> db'.members[p] == s.db.members[p]))
    && (s.pc.Locked? ==>
          forall id :: id in s.pc.locked && id in s.db.keys ==> id in db'.keys && db'.keys[id] == s.db.keys[id])
  }

  ghost predicate Step(s: State, e: Event, s': State, pairs: ReadWritePairs)
  {
    match e
    case Environment => s' == s.(db := s'.db) && Respects(s, s'.db)
    case Reduce(r, scope) =>
      s.pc.Idle? && Apply(s.db, r, scope).Changed? && s' == s.(pc := Pc.Reduced(WriteOf(s.db, r, scope)))
    case LookUp => s.pc.Reduced? && s' == s.(pc := Looked(s.pc.w, RetainedScopes(s.db, s.pc.w)))
    case LockKeys =>
      s.pc.Looked? &&
      var keys := DerivedKeys(s.db, s.pc.w.user, s.pc.w.orgs);
      s' == s.(pc := Locked(s.pc.w, s.pc.retained, keys, Judged(s.db, keys, s.pc.retained, pairs)))
    case DeleteAndCommit =>
      s.pc.Locked? &&
      var db := Overlay(s.db, s.pc.w);
      s' == State(db.(keys := db.keys - s.pc.doomed), Over)
    case Rollback => !s.pc.Over? && s' == s.(pc := Over)
  }

  ghost predicate Run(states: seq<State>, events: seq<Event>, pairs: ReadWritePairs)
  {
    && |states| == |events| + 1 && states[0].pc.Idle?
    && forall i :: 0 <= i < |events| ==> Step(states[i], events[i], states[i + 1], pairs)
  }

  /** The uncommitted write is the reduction's own statement. */
  lemma WriteIsTheReduction(db: Db, r: Reduction, scope: OrgScope)
    requires Apply(db, r, scope).Changed?
    ensures Overlay(db, WriteOf(db, r, scope)) == Apply(db, r, scope).db
    ensures WriteOf(db, r, scope).orgs == Apply(db, r, scope).orgs && WriteOf(db, r, scope).user == r.user
  {
    var e, w := Apply(db, r, scope), WriteOf(db, r, scope);
    if r.RemoveAll? {
      assert Affected(w) == MembershipsInScope(db, r.user, scope);
    } else {
      assert Affected(w) == {Principal(r.org, r.user)};
    }
    assert Overlay(db, w).members == e.db.members;
  }

  // ---- what the locks keep out ----------------------------------------------

  /** A locked key still belongs to the user, as when it was judged. */
  ghost predicate LocksHold(s: State, pairs: ReadWritePairs)
  {
    s.pc.Locked? ==>
      && s.pc.locked <= DerivedKeys(s.db, s.pc.w.user, s.pc.w.orgs)
      && s.pc.retained.Keys == s.pc.w.orgs
      && s.pc.doomed == Judged(s.db, s.pc.locked, s.pc.retained, pairs)
  }

  ghost predicate LookedUp(s: State)
  {
    s.pc.Looked? ==> s.pc.retained.Keys == s.pc.w.orgs
  }

  lemma StepKeepsLocks(s: State, e: Event, s': State, pairs: ReadWritePairs)
    requires LocksHold(s, pairs) && LookedUp(s) && Step(s, e, s', pairs)
    ensures LocksHold(s', pairs) && LookedUp(s')
  {
    if e.Environment? && s.pc.Locked? {
      forall id | id in s.pc.locked ensures id in s'.db.keys && s'.db.keys[id] == s.db.keys[id] {
        assert id in DerivedKeys(s.db, s.pc.w.user, s.pc.w.orgs);
      }
    }
  }

  lemma {:induction false} RunKeepsLocks(states: seq<State>, events: seq<Event>, pairs: ReadWritePairs, n: nat)
    requires Run(states, events, pairs) && n < |states|
    ensures LocksHold(states[n], pairs) && LookedUp(states[n])
    decreases n
  {
    if n > 0 {
      RunKeepsLocks(states, events, pairs, n - 1);
      StepKeepsLocks(states[n - 1], events[n - 1], states[n], pairs);
    }
  }

  lemma StaysLocked(s: State, e: Event, s': State, pairs: ReadWritePairs)
    requires Step(s, e, s', pairs) && s'.pc.Locked? && !e.LockKeys?
    ensures e.Environment? && s.pc == s'.pc
  {
  }

  /** The half of the promise that holds: from the locking read to the end of the
      transaction a key it saw is neither re-scoped, nor given away, nor deleted by
      anyone else. */
  lemma {:induction false} LockedKeyStands(states: seq<State>, events: seq<Event>, pairs: ReadWritePairs, j: nat, n: nat, id: string)
    requires Run(states, events, pairs) && j < n < |states| && events[j].LockKeys?
    requires states[n].pc.Locked? && id in states[n].pc.locked
    ensures id in states[j].db.keys && id in states[n].db.keys && states[n].db.keys[id] == states[j].db.keys[id]
    ensures states[n].pc == states[j + 1].pc
    decreases n
  {
    assert Step(states[n - 1], events[n - 1], states[n], pairs);
    if j == n - 1 {
      assert id in DerivedKeys(states[j].db, states[j].pc.w.user, states[j].pc.w.orgs);
    } else {
      OneLock(states, events, pairs, j, n - 1);
      StaysLocked(states[n - 1], events[n - 1], states[n], pairs);
      LockedKeyStands(states, events, pairs, j, n - 1, id);
    }
  }

  /** How far a transaction has come; it only goes forward. */
  function Progress(pc: Pc): nat
  {
    match pc
    case Idle => 0
    case Reduced(_) => 1
    case Looked(_, _) => 2
    case Locked(_, _, _, _) => 3
    case Over => 4
  }

  /** A transaction takes its locks once. */
  lemma {:induction false} OneLock(states: seq<State>, events: seq<Event>, pairs: ReadWritePairs, j: nat, n: nat)
    requires Run(states, events, pairs) && j < n < |events| && events[j].LockKeys?
    ensures !events[n].LockKeys? && Progress(states[n].pc) >= 3
    decreases n
  {
    assert Step(states[j], events[j], states[j + 1], pairs);
    assert Step(states[n], events[n], states[n + 1], pairs);
    if j < n - 1 {
      OneLock(states, events, pairs, j, n - 1);
      assert Step(states[n - 1], events[n - 1], states[n], pairs);
    }
  }

  // ---- what they do not -----------------------------------------------------

  ghost predicate AllBacked(db: Db, ids: set<string>, pairs: ReadWritePairs)
  {
    forall id :: id in ids && id in db.keys ==> Backed(db, db.keys[id], pairs)
  }

  /** The user's keys, in the organizations reduced, that the locking read did not see. */
  function Unseen(s: State): set<string>
    requires s.pc.Locked?
  {
    DerivedKeys(s.db, s.pc.w.user, s.pc.w.orgs) - s.pc.locked
  }

  /** The templates behind the new memberships grant what they granted when read. */
  ghost predicate SameAuthority(s: State)
    requires s.pc.Locked?
  {
    s.pc.retained == RetainedScopes(s.db, s.pc.w)
  }

  lemma SeenKeysAreBacked(s: State, s': State, pairs: ReadWritePairs, id: string)
    requires LocksHold(s, pairs) && s.pc.Locked? && SameAuthority(s) && Step(s, DeleteAndCommit, s', pairs)
    requires id in s.pc.locked && id in s'.db.keys
    ensures Backed(s'.db, s'.db.keys[id], pairs)
  {
    assert id in DerivedKeys(s.db, s.pc.w.user, s.pc.w.orgs);
    var o := s.db.keys[id].org;
    assert CurrentScopes(s'.db, Principal(o, s.pc.w.user)) == s.pc.retained[o];
  }

  /** Whatever the templates do: what the commit deletes is exactly what was judged, and
      the keys it leaves are the kept ones and the unseen ones. */
  lemma CommitDeletesTheJudged(states: seq<State>, events: seq<Event>, pairs: ReadWritePairs, n: nat)
    requires Run(states, events, pairs) && n < |events| && events[n].DeleteAndCommit?
    ensures var s, s' := states[n], states[n + 1];
            && s.pc.Locked?
            && s'.db.keys == s.db.keys - Judged(s.db, s.pc.locked, s.pc.retained, pairs)
            && DerivedKeys(s'.db, s.pc.w.user, s.pc.w.orgs) == (s.pc.locked - s.pc.doomed) + Unseen(s)
  {
    assert Step(states[n], events[n], states[n + 1], pairs);
    RunKeepsLocks(states, events, pairs, n);
  }

  /** A committed reduction leaves the user's keys in the affected organizations backed
      if and only if the ones its locking read did not see and the ones it kept are backed
      under the new memberships; and the kept ones are, when the templates behind these
      still grant what they did when they were read back. Then everything turns on the
      keys it did not see. */
  lemma BackedIffUnseenBacked(states: seq<State>, events: seq<Event>, pairs: ReadWritePairs, n: nat)
    requires Run(states, events, pairs) && n < |events| && events[n].DeleteAndCommit?
    ensures states[n].pc.Locked?
    ensures var s, after := states[n], states[n + 1].db;
            var keys := DerivedKeys(after, s.pc.w.user, s.pc.w.orgs);
            && (AllBacked(after, keys, pairs) <==> AllBacked(after, Unseen(s), pairs) && AllBacked(after, s.pc.locked, pairs))
            && (SameAuthority(s) ==> (AllBacked(after, keys, pairs) <==> AllBacked(after, Unseen(s), pairs)))
  {
    var s, s' := states[n], states[n + 1];
    assert Step(s, events[n], s', pairs);
    RunKeepsLocks(states, events, pairs, n);
    CommitDeletesTheJudged(states, events, pairs, n);
    if SameAuthority(s) {
      forall id | id in s.pc.locked && id in s'.db.keys ensures Backed(s'.db, s'.db.keys[id], pairs) {
        SeenKeysAreBacked(s, s', pairs, id);
      }
    }
  }

  /** With templates unchanged from the read-back to the commit the condition on
      authority holds by itself. */
  lemma {:induction false} QuietTemplatesSameAuthority(states: seq<State>, events: seq<Event>, pairs: ReadWritePairs, j: nat, n: nat)
    requires Run(states, events, pairs) && j < n < |states| && events[j].LookUp?
    requires forall k :: j <= k <= n ==> states[k].db.templates == states[j].db.templates
    ensures states[n].pc.Looked? || states[n].pc.Locked? ==> states[n].pc.retained == RetainedScopes(states[n].db, states[n].pc.w)
    ensures Progress(states[n].pc) >= 2
    decreases n
  {
    assert Step(states[n - 1], events[n - 1], states[n], pairs);
    if j < n - 1 {
      QuietTemplatesSameAuthority(states, events, pairs, j, n - 1);
      if states[n].pc.Looked? || states[n].pc.Locked? {
        RetainedByTemplates(states[n - 1].db, states[n].db, states[n].pc.w);
      }
    }
  }

  /** The scopes read back depend on the write and the templates only. */
  lemma RetainedByTemplates(a: Db, b: Db, w: Write)
    requires a.templates == b.templates
    ensures RetainedScopes(a, w) == RetainedScopes(b, w)
  {
    forall o | o in w.orgs
      ensures CurrentScopes(Overlay(a, w), Principal(o, w.user)) == CurrentScopes(Overlay(b, w), Principal(o, w.user))
    {
      assert Principal(o, w.user) in Affected(w);
    }
  }

  // ---- the runs that break the rest -----------------------------------------

  const MEMBER := Principal("a", "u")
  const MINTED := ApiKey("a", Some("u"), ["users:write"])
  const BEFORE := Db(map["t" := Template("t", ["users:write"], false)], map[MEMBER := Some("t")], map[])

  lemma HoldsItsScope(db: Db)
    requires CurrentScopes(db, MEMBER) == ["users:write"]
    ensures Backed(db, MINTED, map[])
  {
    assert Grants("users:write", "users:write", map[]);
    assert ["users:write"][0] == "users:write";
  }

  /** Reduce, look up, lock, one change by others, commit. */
  function StatesOf(db: Db, db': Db, w: Write, retained: map<string, seq<Scope>>, keys: set<string>): seq<State>
  {
    [State(db, Idle), State(db, Pc.Reduced(w)), State(db, Looked(w, retained)), State(db, Locked(w, retained, keys, {})),
     State(db', Locked(w, retained, keys, {})), State(Overlay(db', w), Over)]
  }

  function EventsOf(r: Reduction, scope: OrgScope): seq<Event>
  {
    [Reduce(r, scope), LookUp, LockKeys, Environment, DeleteAndCommit]
  }

  lemma TakesLocks(db: Db, r: Reduction, scope: OrgScope, w: Write, keys: set<string>)
    requires Apply(db, r, scope).Changed? && w == WriteOf(db, r, scope)
    requires keys == DerivedKeys(db, w.user, w.orgs) && Judged(db, keys, RetainedScopes(db, w), map[]) == {}
    ensures Step(State(db, Idle), Reduce(r, scope), State(db, Pc.Reduced(w)), map[])
    ensures Step(State(db, Pc.Reduced(w)), LookUp, State(db, Looked(w, RetainedScopes(db, w))), map[])
    ensures Step(State(db, Looked(w, RetainedScopes(db, w))), LockKeys, State(db, Locked(w, RetainedScopes(db, w), keys, {})), map[])
  {
  }

  lemma CommitsKeepingAll(db: Db, w: Write, retained: map<string, seq<Scope>>, keys: set<string>)
    ensures Step(State(db, Locked(w, retained, keys, {})), DeleteAndCommit, State(Overlay(db, w), Over), map[])
  {
    var after := Overlay(db, w);
    assert after.keys - {} == after.keys;
  }

  lemma RunOf(db: Db, db': Db, r: Reduction, scope: OrgScope, w: Write, keys: set<string>)
    requires Apply(db, r, scope).Changed? && w == WriteOf(db, r, scope)
    requires keys == DerivedKeys(db, w.user, w.orgs) && Judged(db, keys, RetainedScopes(db, w), map[]) == {}
    requires Respects(State(db, Locked(w, RetainedScopes(db, w), keys, {})), db')
    ensures Run(StatesOf(db, db', w, RetainedScopes(db, w), keys), EventsOf(r, scope), map[])
  {
    var retained := RetainedScopes(db, w);
    TakesLocks(db, r, scope, w, keys);
    CommitsKeepingAll(db', w, retained, keys);
    var states, events := StatesOf(db, db', w, retained, keys), EventsOf(r, scope);
    assert Step(states[3], events[3], states[4], map[]);
    forall i | 0 <= i < |events| ensures Step(states[i], events[i], states[i + 1], map[]) {
      assert i == 0 || i == 1 || i == 2 || i == 3 || i == 4;
    }
  }

  lemma NothingBacksIt(db: Db)
    requires CurrentScopes(db, MEMBER) == []
    ensures !Backed(db, MINTED, map[])
  {
    assert ["users:write"][0] == "users:write" && !HasScope([], "users:write", map[]);
  }

  lemma RemovalWrites(db: Db, scope: OrgScope)
    requires scope.all && MEMBER in db.members
    ensures Apply(db, Reduction.RemoveMember("a", "u"), scope).Changed?
    ensures var w := Write("u", {"a"}, None);
            && WriteOf(db, Reduction.RemoveMember("a", "u"), scope) == w && Affected(w) == {MEMBER}
            && forall db2 :: CurrentScopes(Overlay(db2, w), MEMBER) == []
  {
    assert Affected(Write("u", {"a"}, None)) == {MEMBER};
  }

  lemma AssignmentWrites(db: Db, scope: OrgScope)
    requires scope.all && MEMBER in db.members && "t" in db.templates
    ensures Apply(db, SetTemplate("a", "u", Some("t")), scope).Changed?
    ensures var w := Write("u", {"a"}, Some(Some("t")));
            && WriteOf(db, SetTemplate("a", "u", Some("t")), scope) == w && Affected(w) == {MEMBER}
            && CurrentScopes(Overlay(db, w), MEMBER) == db.templates["t"].scopes
  {
    assert Affected(Write("u", {"a"}, Some(Some("t")))) == {MEMBER};
  }

  /** The half that fails. A key inserted after the locking read, backed by the
      membership everyone else still sees, is not swept: the removal commits and the key
      outlives the authority behind it. */
  lemma MintedKeyOutlives() returns (states: seq<State>, events: seq<Event>)
    ensures Run(states, events, map[]) && |events| == 5
    ensures KeysBacked(states[0].db, map[])
    ensures events[2].LockKeys? && events[3].Environment? && events[4].DeleteAndCommit?
    ensures states[4].db == states[3].db.(keys := states[3].db.keys["k" := MINTED]) && KeysBacked(states[4].db, map[])
    ensures "k" in states[5].db.keys && !Backed(states[5].db, states[5].db.keys["k"], map[])
  {
    var scope := OrgScopeAllOrganizations();
    var r := Reduction.RemoveMember("a", "u");
    var w := Write("u", {"a"}, None);
    var minted := BEFORE.(keys := BEFORE.keys["k" := MINTED]);
    RemovalWrites(BEFORE, scope);
    assert DerivedKeys(BEFORE, "u", {"a"}) == {};
    RunOf(BEFORE, minted, r, scope, w, {});
    states, events := StatesOf(BEFORE, minted, w, RetainedScopes(BEFORE, w), {}), EventsOf(r, scope);
    HoldsItsScope(minted);
    NothingBacksIt(Overlay(minted, w));
  }

  const KEYED := BEFORE.(keys := map["k" := MINTED])
  const NARROWED := KEYED.(templates := map["t" := Template("t", [], false)])
  const ASSIGNED := Write("u", {"a"}, Some(Some("t")))

  lemma NarrowingRuns(scope: OrgScope)
    requires scope.all
    ensures Run(StatesOf(KEYED, NARROWED, ASSIGNED, RetainedScopes(KEYED, ASSIGNED), {"k"}),
                EventsOf(SetTemplate("a", "u", Some("t")), scope), map[])
  {
    AssignmentWrites(KEYED, scope);
    HoldsItsScope(Overlay(KEYED, ASSIGNED));
    assert DerivedKeys(KEYED, "u", {"a"}) == {"k"};
    assert RetainedScopes(KEYED, ASSIGNED)["a"] == CurrentScopes(Overlay(KEYED, ASSIGNED), MEMBER);
    RunOf(KEYED, NARROWED, SetTemplate("a", "u", Some("t")), scope, ASSIGNED, {"k"});
  }

  lemma NarrowingEnds(scope: OrgScope)
    requires scope.all
    ensures KeysBacked(KEYED, map[]) && DerivedKeys(NARROWED, "u", {"a"}) == {"k"}
    ensures !Backed(Overlay(NARROWED, ASSIGNED), MINTED, map[])
  {
    HoldsItsScope(KEYED);
    AssignmentWrites(NARROWED, scope);
    NothingBacksIt(Overlay(NARROWED, ASSIGNED));
  }

  /** The template behind the new membership is not locked either. Narrowed after it was
      read back, it leaves a kept key unbacked without any key being minted: the kept half
      of the condition is needed too. */
  lemma NarrowedTemplateOutlives() returns (states: seq<State>, events: seq<Event>)
    ensures Run(states, events, map[]) && |events| == 5
    ensures KeysBacked(states[0].db, map[])
    ensures events[1].LookUp? && events[3].Environment? && events[4].DeleteAndCommit?
    ensures states[4].db.keys == states[3].db.keys && states[4].pc.Locked? && Unseen(states[4]) == {}
    ensures "k" in states[5].db.keys && !Backed(states[5].db, states[5].db.keys["k"], map[])
  {
    var scope := OrgScopeAllOrganizations();
    NarrowingRuns(scope);
    NarrowingEnds(scope);
    states := StatesOf(KEYED, NARROWED, ASSIGNED, RetainedScopes(KEYED, ASSIGNED), {"k"});
    events := EventsOf(SetTemplate("a", "u", Some("t")), scope);
  }
}
