/** The transactional authority reduction: one principal's authority change and the
    deletion of the keys it strands commit together or not at all. */
module AuthorityReduction {
  import opened Common
  import opened Scopes
  import opened IdentityDb
  import opened OrgScopes

  datatype ReduceError =
    | NoReducer | NoCredentialDecision | NotFound | NoSuchTemplate
    | ForeignKeyViolation | StatementFailed | SweepFailed | AppCredentialsFailed | CommitFailed

  datatype Reduced = Reduced(userId: string, organizations: seq<string>, keysRevoked: nat, keysRetained: nat)

  datatype Outcome = Committed(red: Reduced) | Refused(error: ReduceError)

  /** The application's own sweep: true when it succeeded. */
  type AppCredentials = Reduced -> bool

  /** Failures of the database itself: opening the transaction or the membership
      statement; the sweep's statements; rows its DELETE leaves behind; the commit. */
  datatype Faults = Faults(statement: bool, sweep: bool, skipped: set<string>, commit: bool)

  // ---- the four reductions as effects on the tables -----------------------

  datatype Reduction =
    | RemoveMember(org: string, user: string)
    | SetTemplate(org: string, user: string, template: Option<string>)
    | SetTemplateByName(org: string, user: string, name: string)
    | RemoveAll(user: string)

  datatype Effect = Changed(db: Db, orgs: set<string>) | Rejected(error: ReduceError)

  /** The membership statement of a reduction, under its tenant predicate. */
  ghost function Apply(db: Db, r: Reduction, scope: OrgScope): Effect
  {
    match r
    case RemoveMember(org, user) =>
      var p := Principal(org, user);
      if p !in db.members || !scope.PermitsOrganization(org) then Rejected(NotFound)
      else Changed(db.(members := db.members - {p}), {org})
    case SetTemplate(org, user, template) => Reassign(db, Principal(org, user), template, scope)
    case SetTemplateByName(org, user, name) =>
      if t :| t in db.templates && db.templates[t].name == name
      then Reassign(db, Principal(org, user), Some(t), scope)
      else Rejected(NoSuchTemplate)
    case RemoveAll(user) =>
      var gone := MembershipsInScope(db, user, scope);
      Changed(db.(members := db.members - gone), set p | p in gone :: p.org)
  }

  ghost function Reassign(db: Db, p: Principal, template: Option<string>, scope: OrgScope): Effect
  {
    if p !in db.members || !scope.PermitsOrganization(p.org) then Rejected(NotFound)
    else if template.Some? && template.value !in db.templates then Rejected(ForeignKeyViolation)
    else Changed(db.(members := db.members[p := template]), {p.org})
  }

  function MembershipsInScope(db: Db, user: string, scope: OrgScope): set<Principal>
  {
    set p | p in db.members && p.user == user && scope.PermitsOrganization(p.org)
  }

  /** The keys one user holds in some organizations. */
  function DerivedKeys(db: Db, user: string, orgs: set<string>): set<string>
  {
    set id | id in db.keys && db.keys[id].user == Some(user) && db.keys[id].org in orgs
  }

  function DoomedKeys(db: Db, user: string, orgs: set<string>, pairs: ReadWritePairs): set<string>
  {
    set id | id in DerivedKeys(db, user, orgs) && !Backed(db, db.keys[id], pairs)
  }

  function Swept(db: Db, user: string, orgs: set<string>, pairs: ReadWritePairs): Db
  {
    db.(keys := db.keys - DoomedKeys(db, user, orgs, pairs))
  }

  /** Template names are unique, as the schema has them. */
  ghost predicate UniqueNames(db: Db)
  {
    forall s, t :: s in db.templates && t in db.templates && db.templates[s].name == db.templates[t].name ==> s == t
  }

  /** What a reduction reports. */
  ghost predicate ReportOf(db: Db, r: Reduction, scope: OrgScope, pairs: ReadWritePairs, red: Reduced)
  {
    var e := Apply(db, r, scope);
    && e.Changed?
    && red.userId == r.user
    && (set o | o in red.organizations) == e.orgs
    && |red.organizations| == |e.orgs|
    && red.keysRevoked == |DoomedKeys(e.db, r.user, e.orgs, pairs)|
    && red.keysRetained == |DerivedKeys(e.db, r.user, e.orgs) - DoomedKeys(e.db, r.user, e.orgs, pairs)|
  }

  /** The tables after a committed reduction. */
  ghost predicate CommittedAs(db: Db, db': Db, r: Reduction, scope: OrgScope, pairs: ReadWritePairs, red: Reduced)
  {
    ReportOf(db, r, scope, pairs, red) && db' == Swept(Apply(db, r, scope).db, r.user, Apply(db, r, scope).orgs, pairs)
  }

  /** The sweep goes through only if it can delete every row it judged. */
  predicate SweepFails(db: Db, user: string, orgs: set<string>, pairs: ReadWritePairs, f: Faults)
  {
    f.sweep || DoomedKeys(db, user, orgs, pairs) * f.skipped != {}
  }

  /** When a reduction commits, and otherwise which refusal it gets. Where nothing was
      reduced nothing is swept, neither here nor by the application. */
  ghost predicate Verdict(db: Db, r: Reduction, scope: OrgScope, pairs: ReadWritePairs, app: AppCredentials, f: Faults, out: Outcome)
  {
    if f.statement then out == Refused(StatementFailed)
    else
      match Apply(db, r, scope)
      case Rejected(error) => out == Refused(error)
      case Changed(_, orgs) =>
        if orgs != {} && SweepFails(Apply(db, r, scope).db, r.user, orgs, pairs, f) then out == Refused(SweepFailed)
        else exists red :: ReportOf(db, r, scope, pairs, red) && out == Settled(red, orgs, app, f)
  }

  function Settled(red: Reduced, orgs: set<string>, app: AppCredentials, f: Faults): Outcome
  {
    if orgs != {} && !app(red) then Refused(AppCredentialsFailed)
    else if f.commit then Refused(CommitFailed)
    else Committed(red)
  }

  class Reducer {
    const db: Tables?
    const pairs: ReadWritePairs

    constructor (db: Tables?, pairs: ReadWritePairs)
      ensures this.db == db && this.pairs == pairs
    {
      this.db, this.pairs := db, pairs;
    }

    ghost function Footprint(): set<object>
    {
      if db == null then {} else {db}
    }

    /** The decision half of sweepDerivedKeys: judge each locked row, one at a time. */
    method JudgeKeys(work: Db, rows: set<string>) returns (doomed: set<string>, retained: nat)
      requires rows <= work.keys.Keys
      ensures doomed == set id | id in rows && !Backed(work, work.keys[id], pairs)
      ensures retained == |rows - doomed|
    {
      var unread := rows;
      doomed, retained := {}, 0;
      ghost var spared: set<string> := {};
      while unread != {}
        invariant unread <= rows
        invariant forall id :: id in doomed <==> id in rows && id !in unread && !Backed(work, work.keys[id], pairs)
        invariant forall id :: id in spared <==> id in rows && id !in unread && Backed(work, work.keys[id], pairs)
        invariant retained == |spared|
        decreases unread
      {
        var id :| id in unread;
        unread := unread - {id};
        if Backed(work, work.keys[id], pairs) {
          retained := retained + 1;
          spared := spared + {id};
        } else {
          doomed := doomed + {id};
        }
      }
      assert spared == rows - doomed;
    }

    /** sweepDerivedKeys on the transaction's own copy of the tables. A DELETE that
        matches fewer rows than were judged is a failure, never a smaller sweep. */
    method SweepDerivedKeys(work: Db, user: string, orgs: set<string>, f: Faults)
      returns (ok: bool, work': Db, revoked: nat, retained: nat)
      ensures ok <==> !SweepFails(work, user, orgs, pairs, f)
      ensures ok ==> work' == Swept(work, user, orgs, pairs)
      ensures ok ==> revoked == |DoomedKeys(work, user, orgs, pairs)|
      ensures ok ==> retained == |DerivedKeys(work, user, orgs) - DoomedKeys(work, user, orgs, pairs)|
    {
      if f.sweep { return false, work, 0, 0; }
      var doomed;
      doomed, retained := JudgeKeys(work, DerivedKeys(work, user, orgs));
      assert doomed == DoomedKeys(work, user, orgs, pairs);
      var deleted := doomed - f.skipped;
      SubsetSize(deleted, doomed);
      if |deleted| != |doomed| { return false, work, 0, 0; }
      work' := work.(keys := work.keys - deleted);
      ok, revoked := true, |deleted|;
    }

    /** The shared tail of every reduction: sweep, the application's sweep, commit.
        Nothing is written to the tables before the commit. */
    method Finish(work: Db, user: string, orgs: seq<string>, app: AppCredentials, f: Faults)
      returns (out: Outcome)
      requires db != null
      requires |orgs| == |set o | o in orgs|
      modifies db
      ensures out.Refused? ==> db.View() == old(db.View())
      ensures out.Committed? ==> db.View() == Swept(work, user, (set o | o in orgs), pairs)
      ensures var affected := set o | o in orgs;
              var red := Reduced(user, orgs, |DoomedKeys(work, user, affected, pairs)|,
                                 |DerivedKeys(work, user, affected) - DoomedKeys(work, user, affected, pairs)|);
              out == if affected != {} && SweepFails(work, user, affected, pairs, f) then Refused(SweepFailed) else Settled(red, affected, app, f)
    {
      var red := Reduced(user, orgs, 0, 0);
      var affected := set o | o in orgs;
      var work' := work;
      if |orgs| > 0 {
        assert orgs[0] in affected;
        var ok, revoked, retained;
        ok, work', revoked, retained := SweepDerivedKeys(work, user, affected, f);
        if !ok { return Refused(SweepFailed); }
        red := red.(keysRevoked := revoked, keysRetained := retained);
        if !app(red) {
          return Refused(AppCredentialsFailed);
        }
      } else {
        assert affected == {} && DerivedKeys(work, user, affected) == {};
        assert work.keys - {} == work.keys;
      }
      if f.commit {
        return Refused(CommitFailed);
      }
      db.templates, db.members, db.keys := work'.templates, work'.members, work'.keys;
      return Committed(red);
    }

    /** Refusals every reduction shares, before the database is touched. */
    function Precheck(app: Option<AppCredentials>): Option<ReduceError>
    {
      if db == null then Some(NoReducer)
      else if app.None? then Some(NoCredentialDecision)
      else None
    }

    method RemoveMember(org: string, user: string, scope: OrgScope, app: Option<AppCredentials>, f: Faults)
      returns (out: Outcome)
      modifies Footprint()
      ensures out.Committed? ==>
                db != null && CommittedAs(old(db.View()), db.View(), Reduction.RemoveMember(org, user), scope, pairs, out.red)
      ensures out.Refused? && db != null ==> db.View() == old(db.View())
      ensures scope.MatchesNothing() ==> out == Refused(NotFound)
      ensures !scope.MatchesNothing() && Precheck(app).Some? ==> out == Refused(Precheck(app).value)
      ensures !scope.MatchesNothing() && Precheck(app).None? ==>
                Verdict(old(db.View()), Reduction.RemoveMember(org, user), scope, pairs, app.value, f, out)
    {
      if scope.MatchesNothing() { return Refused(NotFound); }
      if Precheck(app).Some? { return Refused(Precheck(app).value); }
      if f.statement { return Refused(StatementFailed); }
      var work := db.View();
      var p := Principal(org, user);
      if p !in work.members || !scope.PermitsOrganization(org) { return Refused(NotFound); }
      assert (set o | o in [org]) == {org};
      out := Finish(work.(members := work.members - {p}), user, [org], app.value, f);
      SettledAs(work, Reduction.RemoveMember(org, user), scope, [org], app.value, f, out);
    }

    method UpdateMemberRoleTemplate(org: string, user: string, template: Option<string>, scope: OrgScope,
                                    app: Option<AppCredentials>, f: Faults)
      returns (out: Outcome)
      modifies Footprint()
      ensures out.Committed? ==>
                db != null && CommittedAs(old(db.View()), db.View(), SetTemplate(org, user, template), scope, pairs, out.red)
      ensures out.Refused? && db != null ==> db.View() == old(db.View())
      ensures scope.MatchesNothing() ==> out == Refused(NotFound)
      ensures !scope.MatchesNothing() && Precheck(app).Some? ==> out == Refused(Precheck(app).value)
      ensures !scope.MatchesNothing() && Precheck(app).None? ==>
                Verdict(old(db.View()), SetTemplate(org, user, template), scope, pairs, app.value, f, out)
    {
      if scope.MatchesNothing() { return Refused(NotFound); }
      if Precheck(app).Some? { return Refused(Precheck(app).value); }
      out := SetMemberTemplate(org, user, template, scope, app.value, f);
    }

    method SetMemberTemplate(org: string, user: string, template: Option<string>, scope: OrgScope,
                             app: AppCredentials, f: Faults)
      returns (out: Outcome)
      requires db != null
      modifies db
      ensures out.Committed? ==>
                CommittedAs(old(db.View()), db.View(), SetTemplate(org, user, template), scope, pairs, out.red)
      ensures out.Refused? ==> db.View() == old(db.View())
      ensures Verdict(old(db.View()), SetTemplate(org, user, template), scope, pairs, app, f, out)
    {
      if f.statement { return Refused(StatementFailed); }
      var work := db.View();
      var p := Principal(org, user);
      if p !in work.members || !scope.PermitsOrganization(org) { return Refused(NotFound); }
      if template.Some? && template.value !in work.templates { return Refused(ForeignKeyViolation); }
      assert (set o | o in [org]) == {org};
      assert Apply(work, SetTemplate(org, user, template), scope) == Changed(work.(members := work.members[p := template]), {org});
      out := Finish(work.(members := work.members[p := template]), user, [org], app, f);
      SettledAs(work, SetTemplate(org, user, template), scope, [org], app, f, out);
    }

    method UpdateMemberRole(org: string, user: string, name: string, scope: OrgScope,
                            app: Option<AppCredentials>, f: Faults)
      returns (out: Outcome)
      requires db != null ==> UniqueNames(db.View())
      modifies Footprint()
      ensures out.Committed? ==>
                db != null && CommittedAs(old(db.View()), db.View(), SetTemplateByName(org, user, name), scope, pairs, out.red)
      ensures out.Refused? && db != null ==> db.View() == old(db.View())
      ensures scope.MatchesNothing() ==> out == Refused(NotFound)
      ensures !scope.MatchesNothing() && Precheck(app).Some? ==> out == Refused(Precheck(app).value)
      ensures !scope.MatchesNothing() && Precheck(app).None? ==>
                Verdict(old(db.View()), SetTemplateByName(org, user, name), scope, pairs, app.value, f, out)
    {
      if scope.MatchesNothing() { return Refused(NotFound); }
      if Precheck(app).Some? { return Refused(Precheck(app).value); }
      if f.statement { return Refused(StatementFailed); }
      if t :| t in db.templates && db.templates[t].name == name {
        ghost var before := db.View();
        out := SetMemberTemplate(org, user, Some(t), scope, app.value, f);
        ByNameIsById(before, org, user, name, t, scope, app.value, f, out, pairs);
      } else {
        return Refused(NoSuchTemplate);
      }
    }

    method RemoveAllMembershipsForUser(user: string, scope: OrgScope, app: Option<AppCredentials>, f: Faults)
      returns (out: Outcome)
      modifies Footprint()
      ensures out.Committed? && !scope.MatchesNothing() ==>
                db != null && CommittedAs(old(db.View()), db.View(), RemoveAll(user), scope, pairs, out.red)
      ensures out.Refused? && db != null ==> db.View() == old(db.View())
      ensures scope.MatchesNothing() ==>
                out == Committed(Reduced(user, [], 0, 0)) && (db != null ==> db.View() == old(db.View()))
      ensures !scope.MatchesNothing() && Precheck(app).Some? ==> out == Refused(Precheck(app).value)
      ensures !scope.MatchesNothing() && Precheck(app).None? ==>
                Verdict(old(db.View()), RemoveAll(user), scope, pairs, app.value, f, out)
    {
      if scope.MatchesNothing() { return Committed(Reduced(user, [], 0, 0)); }
      if Precheck(app).Some? { return Refused(Precheck(app).value); }
      if f.statement { return Refused(StatementFailed); }
      var work := db.View();
      var removed := RemovedOrganizations(MembershipsInScope(work, user, scope), user);
      out := Finish(work.(members := work.members - MembershipsInScope(work, user, scope)), user, removed, app.value, f);
      SettledAs(work, RemoveAll(user), scope, removed, app.value, f, out);
    }

    /** The organizations of the rows a bulk removal returned, one row at a time. */
    method RemovedOrganizations(gone: set<Principal>, user: string) returns (removed: seq<string>)
      requires forall p :: p in gone ==> p.user == user
      ensures (set o | o in removed) == set p | p in gone :: p.org
      ensures |removed| == |set o | o in removed|
    {
      var unread := gone;
      removed := [];
      while unread != {}
        invariant unread <= gone
        invariant forall o :: o in removed <==> Principal(o, user) in gone - unread
        invariant |removed| == |set o | o in removed|
        decreases unread
      {
        var p :| p in unread;
        assert p == Principal(p.org, user);
        unread := unread - {p};
        assert (set o | o in removed + [p.org]) == (set o | o in removed) + {p.org};
        removed := removed + [p.org];
      }
      forall p | p in gone ensures p.org in removed { assert p == Principal(p.org, user); }
    }

    /** Whatever order the organizations are listed in, the outcome of the shared tail is
        the reduction's. */
    lemma SettledAs(work: Db, r: Reduction, scope: OrgScope, orgs: seq<string>, app: AppCredentials, f: Faults, out: Outcome)
      requires !f.statement && Apply(work, r, scope).Changed?
      requires (set o | o in orgs) == Apply(work, r, scope).orgs && |orgs| == |Apply(work, r, scope).orgs|
      requires var e := Apply(work, r, scope);
               var red := Reduced(r.user, orgs, |DoomedKeys(e.db, r.user, e.orgs, pairs)|,
                                  |DerivedKeys(e.db, r.user, e.orgs) - DoomedKeys(e.db, r.user, e.orgs, pairs)|);
               out == if e.orgs != {} && SweepFails(e.db, r.user, e.orgs, pairs, f) then Refused(SweepFailed)
                      else Settled(red, e.orgs, app, f)
      ensures Verdict(work, r, scope, pairs, app, f, out)
      ensures out.Committed? ==> ReportOf(work, r, scope, pairs, out.red)
    {
      var e := Apply(work, r, scope);
      var red := Reduced(r.user, orgs, |DoomedKeys(e.db, r.user, e.orgs, pairs)|,
                         |DerivedKeys(e.db, r.user, e.orgs) - DoomedKeys(e.db, r.user, e.orgs, pairs)|);
      assert ReportOf(work, r, scope, pairs, red);
    }
  }

  /** Template names being unique, a reassignment by name is the one by id. */
  lemma ByNameIsById(db: Db, org: string, user: string, name: string, t: string, scope: OrgScope,
                     app: AppCredentials, f: Faults, out: Outcome, pairs: ReadWritePairs)
    requires UniqueNames(db) && t in db.templates && db.templates[t].name == name
    ensures Apply(db, SetTemplateByName(org, user, name), scope) == Apply(db, SetTemplate(org, user, Some(t)), scope)
    ensures forall red :: ReportOf(db, SetTemplate(org, user, Some(t)), scope, pairs, red) ==>
                            ReportOf(db, SetTemplateByName(org, user, name), scope, pairs, red)
    ensures Verdict(db, SetTemplate(org, user, Some(t)), scope, pairs, app, f, out) ==>
              Verdict(db, SetTemplateByName(org, user, name), scope, pairs, app, f, out)
  {
  }

  // ---- what a reduction does, row by row ----------------------------------

  /** The membership is one the reduction addresses, and its organization is inside the
      scope. */
  predicate Addressed(r: Reduction, scope: OrgScope, p: Principal)
  {
    p.user == r.user && (r.RemoveAll? || p.org == r.org) && scope.PermitsOrganization(p.org)
  }

  /** Nothing outside the scope, and nobody else's membership, is touched; a bulk removal
      takes every membership of the user inside the scope; no membership appears. */
  lemma ReductionStaysInScope(db: Db, r: Reduction, scope: OrgScope, p: Principal)
    requires Apply(db, r, scope).Changed?
    ensures var db' := Apply(db, r, scope).db;
            && (p in db'.members ==> p in db.members)
            && (p in db.members && (p !in db'.members || db'.members[p] != db.members[p]) ==>
                  p.user == r.user && scope.PermitsOrganization(p.org))
            && (r.RemoveAll? && p in db.members ==>
                  (p in db'.members <==> p.user != r.user || !scope.PermitsOrganization(p.org)))
  {
  }

  /** The new membership rows of each reduction, and the organizations it reports. */
  lemma ReductionWrites(db: Db, r: Reduction, scope: OrgScope)
    requires Apply(db, r, scope).Changed?
    ensures var e := Apply(db, r, scope);
            && e.db.templates == db.templates && e.db.keys == db.keys
            && (forall p :: p in db.members && !Addressed(r, scope, p) ==> p in e.db.members && e.db.members[p] == db.members[p])
            && (forall p :: p in db.members && Addressed(r, scope, p) ==>
                  if r.RemoveMember? || r.RemoveAll? then p !in e.db.members
                  else p in e.db.members && Assigned(db, r, e.db.members[p]))
            && (forall o :: o in e.orgs <==> Principal(o, r.user) in db.members && Addressed(r, scope, Principal(o, r.user)))
  {
    if r.RemoveAll? {
      var gone := MembershipsInScope(db, r.user, scope);
      forall o ensures o in Apply(db, r, scope).orgs <==> Principal(o, r.user) in db.members && scope.PermitsOrganization(o) {
        if Principal(o, r.user) in gone { assert Principal(o, r.user).org == o; }
      }
    }
  }

  /** What the row says after a reassignment. */
  ghost predicate Assigned(db: Db, r: Reduction, value: Option<string>)
  {
    match r
    case SetTemplate(_, _, template) => value == template && (template.Some? ==> template.value in db.templates)
    case SetTemplateByName(_, _, name) => value.Some? && value.value in db.templates && db.templates[value.value].name == name
    case _ => false
  }

  lemma DoomedRow(db: Db, r: Reduction, scope: OrgScope, pairs: ReadWritePairs, id: string)
    requires Apply(db, r, scope).Changed?
    ensures var e := Apply(db, r, scope);
            id in DoomedKeys(e.db, r.user, e.orgs, pairs) <==>
              && id in db.keys && db.keys[id].user == Some(r.user)
              && Principal(db.keys[id].org, r.user) in db.members && Addressed(r, scope, Principal(db.keys[id].org, r.user))
              && !AuthorityRetained(db.keys[id].scopes, CurrentScopes(e.db, Principal(db.keys[id].org, r.user)), pairs)
  {
    ReductionWrites(db, r, scope);
  }

  lemma FewerKeys(keys: map<string, ApiKey>, doomed: set<string>)
    requires doomed <= keys.Keys
    ensures |doomed| == |keys| - |keys - doomed|
  {
    SubsetSize(doomed, keys.Keys);
    assert (keys - doomed).Keys == keys.Keys - doomed;
    assert |keys - doomed| == |(keys - doomed).Keys| && |keys| == |keys.Keys|;
  }

  /** A committed reduction on the key rows: it deletes a key exactly when the key is the
      user's, in an organization whose membership it addressed, and asks for more than the
      user holds there now. Nobody else's key moves, backed or not. */
  lemma CommittedKeys(db: Db, db': Db, r: Reduction, scope: OrgScope, pairs: ReadWritePairs, red: Reduced, id: string)
    requires CommittedAs(db, db', r, scope, pairs, red)
    ensures id in db'.keys <==>
              id in db.keys &&
              var key := db.keys[id];
              !(&& key.user == Some(r.user)
                && Principal(key.org, r.user) in db.members && Addressed(r, scope, Principal(key.org, r.user))
                && !AuthorityRetained(key.scopes, CurrentScopes(db', Principal(key.org, r.user)), pairs))
    ensures id in db'.keys ==> db'.keys[id] == db.keys[id]
  {
    var e := Apply(db, r, scope);
    DoomedRow(db, r, scope, pairs, id);
    ReductionWrites(db, r, scope);
    assert db'.keys == db.keys - DoomedKeys(e.db, r.user, e.orgs, pairs);
    if id in db.keys {
      var p := Principal(db.keys[id].org, r.user);
      assert CurrentScopes(db', p) == CurrentScopes(e.db, p);
    }
  }

  /** The report: who, the organizations addressed, and as many keys as have gone. */
  lemma CommittedReport(db: Db, db': Db, r: Reduction, scope: OrgScope, pairs: ReadWritePairs, red: Reduced)
    requires CommittedAs(db, db', r, scope, pairs, red)
    ensures red.userId == r.user && red.keysRevoked == |db.keys| - |db'.keys|
    ensures forall o :: o in red.organizations <==> Principal(o, r.user) in db.members && Addressed(r, scope, Principal(o, r.user))
  {
    ReductionWrites(db, r, scope);
    var e := Apply(db, r, scope);
    var doomed := DoomedKeys(e.db, r.user, e.orgs, pairs);
    FewerKeys(db.keys, doomed);
    forall o ensures o in red.organizations <==> o in e.orgs {
      assert o in red.organizations <==> o in set x | x in red.organizations;
    }
  }

  /** It commits only if nothing failed: not the statements, not the sweep, not the
      application's own sweep, which is shown the report of what was reduced and swept. */
  lemma CommitsIffNothingFailed(db: Db, r: Reduction, scope: OrgScope, pairs: ReadWritePairs, app: AppCredentials, f: Faults, out: Outcome)
    requires Verdict(db, r, scope, pairs, app, f, out)
    ensures out.Committed? ==>
              && !f.statement && !f.commit && Apply(db, r, scope).Changed? && ReportOf(db, r, scope, pairs, out.red)
              && (out.red.organizations != [] ==> !f.sweep && app(out.red))
    ensures out.Refused? ==>
              || f.statement || Apply(db, r, scope) == Rejected(out.error) || f.commit
              || (Apply(db, r, scope).orgs != {} &&
                  (SweepFails(Apply(db, r, scope).db, r.user, Apply(db, r, scope).orgs, pairs, f)
                   || exists red :: ReportOf(db, r, scope, pairs, red) && !app(red)))
  {
    if out.Committed? && out.red.organizations != [] {
      assert out.red.organizations[0] in set o | o in out.red.organizations;
    }
  }

  // ---- what a committed reduction keeps -----------------------------------

  /** A reduction leaves every other principal's authority as it was. */
  lemma ReductionIsLocal(db: Db, r: Reduction, scope: OrgScope, p: Principal)
    requires Apply(db, r, scope).Changed?
    requires p.user != r.user || p.org !in Apply(db, r, scope).orgs
    ensures CurrentScopes(Apply(db, r, scope).db, p) == CurrentScopes(db, p)
  {
    var e := Apply(db, r, scope);
    if r.RemoveAll? {
      var gone := MembershipsInScope(db, r.user, scope);
      assert p in gone ==> p.org in set q | q in gone :: q.org;
    }
  }

  /** From tables in which every key is backed, a committed reduction deletes exactly
      the keys the new memberships no longer back: none too few, none too many. */
  lemma ReductionSweepsExactly(db: Db, r: Reduction, scope: OrgScope, pairs: ReadWritePairs, id: string)
    requires KeysBacked(db, pairs) && Apply(db, r, scope).Changed? && id in db.keys
    ensures var e := Apply(db, r, scope);
            id in Swept(e.db, r.user, e.orgs, pairs).keys <==> Backed(e.db, db.keys[id], pairs)
  {
    var e := Apply(db, r, scope);
    var key := db.keys[id];
    assert e.db.keys == db.keys;
    if key.user.Some? && (key.user.value != r.user || key.org !in e.orgs) {
      ReductionIsLocal(db, r, scope, Principal(key.org, key.user.value));
      assert Backed(db, key, pairs);
    }
  }

  /** No key outlives its owner's authority, across every committed reduction. */
  lemma ReductionKeepsKeysBacked(db: Db, db': Db, r: Reduction, scope: OrgScope, pairs: ReadWritePairs, red: Reduced)
    requires KeysBacked(db, pairs) && CommittedAs(db, db', r, scope, pairs, red)
    ensures KeysBacked(db', pairs)
  {
    var e := Apply(db, r, scope);
    forall id | id in db'.keys ensures Backed(db', db'.keys[id], pairs) {
      ReductionSweepsExactly(db, r, scope, pairs, id);
    }
  }

  /** A key backed before a widening is backed after it. */
  lemma WideningBacks(db: Db, e: Db, p: Principal, key: ApiKey, pairs: ReadWritePairs)
    requires Coherent(pairs) && Backed(db, key, pairs) && key.user == Some(p.user) && key.org == p.org
    requires AuthorityRetained(CurrentScopes(db, p), CurrentScopes(e, p), pairs)
    ensures Backed(e, key, pairs)
  {
    RetainedTransitive(key.scopes, CurrentScopes(db, p), CurrentScopes(e, p), pairs);
  }

  /** A reassignment that widens authority deletes nothing. */
  lemma {:induction false} WideningRevokesNothing(db: Db, db': Db, org: string, user: string, template: string,
                               scope: OrgScope, pairs: ReadWritePairs, red: Reduced)
    requires KeysBacked(db, pairs) && Coherent(pairs)
    requires CommittedAs(db, db', SetTemplate(org, user, Some(template)), scope, pairs, red)
    requires AuthorityRetained(CurrentScopes(db, Principal(org, user)), CurrentScopes(db', Principal(org, user)), pairs)
    ensures db'.keys == db.keys && red.keysRevoked == 0
  {
    var e := Apply(db, SetTemplate(org, user, Some(template)), scope);
    var p := Principal(org, user);
    assert e.db.keys == db.keys && e.orgs == {org};
    assert CurrentScopes(e.db, p) == CurrentScopes(db', p);
    NothingDoomed(db, e.db, p, pairs);
    assert db'.keys == db.keys;
  }

  lemma NothingDoomed(db: Db, e: Db, p: Principal, pairs: ReadWritePairs)
    requires KeysBacked(db, pairs) && Coherent(pairs) && e.keys == db.keys
    requires AuthorityRetained(CurrentScopes(db, p), CurrentScopes(e, p), pairs)
    ensures DoomedKeys(e, p.user, {p.org}, pairs) == {}
  {
    forall id | id in DerivedKeys(e, p.user, {p.org}) ensures Backed(e, e.keys[id], pairs) {
      WideningBacks(db, e, p, db.keys[id], pairs);
    }
  }
}
