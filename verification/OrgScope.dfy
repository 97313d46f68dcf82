/** The mandatory tenant constraint: its constructors, its in-memory decision and the
    predicate it renders for a query. */
module OrgScopes {
  import opened Common
  import opened Ordering
  import opened SqlWhere

  datatype OrgScope = OrgScope(orgIds: seq<string>, all: bool, unowned: bool)
  {
    /** What every constructor establishes about the allowlist. */
    ghost predicate Valid()
    {
      "" !in orgIds && Increasing(orgIds, TextBefore)
    }

    predicate MatchesNothing()
    {
      !all && !unowned && |orgIds| == 0
    }

    predicate PermitsOrganization(orgId: string)
    {
      all || (if orgId == "" then unowned else orgId in orgIds)
    }

    function WithUnowned(): OrgScope
    {
      this.(unowned := true)
    }
  }

  function OrgScopeAllOrganizations(): OrgScope
  {
    OrgScope([], true, false)
  }

  lemma TextOrder()
    ensures StrictOrder(TextBefore)
  {
    forall a: string ensures !TextBefore(a, a) { TextBeforeIrreflexive(a); }
    forall a: string, b: string, c: string | TextBefore(a, b) && TextBefore(b, c) ensures TextBefore(a, c) {
      TextBeforeTransitive(a, b, c);
    }
    forall a: string, b: string ensures a == b || TextBefore(a, b) || TextBefore(b, a) {
      if a != b { TextBeforeTotal(a, b); }
    }
  }

  /** The identifiers a caller named, without the empty one. */
  function Named(orgIds: seq<string>): set<string>
  {
    set id | id in orgIds && id != ""
  }

  ghost predicate Canonical(sorted: seq<string>, ids: set<string>)
  {
    Increasing(sorted, TextBefore) && (set id | id in sorted) == ids
  }

  /** Two canonical lists of one set are equal. */
  lemma CanonicalUnique(a: seq<string>, b: seq<string>, ids: set<string>)
    requires Canonical(a, ids) && Canonical(b, ids)
    ensures a == b
  {
    TextOrder();
    forall s: seq<string> | Canonical(s, ids) ensures s == FirstN(ids, |ids|, TextBefore) {
      IncreasingSize(s, TextBefore);
      forall y | y in ids ensures y in s {
        assert y in set id | id in s;
      }
      assert IsPage(s, ids, |ids|, TextBefore);
      PageUnique(s, ids, |ids|, TextBefore);
    }
  }

  /** sort.Strings on a list without duplicates, by repeated selection. */
  method SortStrings(ids: seq<string>) returns (sorted: seq<string>)
    ensures Canonical(sorted, set id | id in ids)
  {
    TextOrder();
    sorted := [];
    ghost var all := set id | id in ids;
    var rest := set id | id in ids;
    while rest != {}
      invariant all == rest + set id | id in sorted
      invariant Increasing(sorted, TextBefore)
      invariant forall x, y :: x in sorted && y in rest ==> TextBefore(x, y)
      decreases rest
    {
      LeastWitness(rest, TextBefore);
      var x :| x in rest && forall y :: y in rest && y != x ==> TextBefore(x, y);
      sorted, rest := sorted + [x], rest - {x};
    }
  }

  /** OrgScopeOrganizations: the scope is a function of the set of identifiers, not
      of the order or multiplicity in which the caller listed them. */
  method OrgScopeOrganizations(orgIds: seq<string>) returns (scope: OrgScope)
    ensures !scope.all && !scope.unowned
    ensures Canonical(scope.orgIds, Named(orgIds))
    ensures scope.Valid()
  {
    var cleaned: seq<string> := [];
    var seen: set<string> := {};
    for i := 0 to |orgIds|
      invariant seen == Named(orgIds[..i]) == set id | id in cleaned
    {
      var id := orgIds[i];
      assert orgIds[..i + 1] == orgIds[..i] + [id];
      if id == "" || id in seen {
        continue;
      }
      seen := seen + {id};
      cleaned := cleaned + [id];
    }
    assert orgIds[..|orgIds|] == orgIds;
    var sorted := SortStrings(cleaned);
    scope := OrgScope(sorted, false, false);
    forall id | id in sorted ensures id in Named(orgIds) {
      assert id in set x | x in sorted;
    }
  }

  /** Two allowlists are equal scopes exactly when they name the same organizations. */
  lemma ScopeIsItsSet(a: OrgScope, b: OrgScope, idsA: seq<string>, idsB: seq<string>)
    requires Canonical(a.orgIds, Named(idsA)) && Canonical(b.orgIds, Named(idsB))
    requires a.all == b.all && a.unowned == b.unowned
    ensures a == b <==> Named(idsA) == Named(idsB)
  {
    if Named(idsA) == Named(idsB) {
      CanonicalUnique(a.orgIds, b.orgIds, Named(idsA));
    }
  }

  // ---- the rendered predicate --------------------------------------------

  /** OrgScope.SQL: the clause over column and the arguments it binds from paramIndex on. */
  function Sql(scope: OrgScope, column: Column, paramIndex: nat): (r: (Clause, seq<Value>))
    ensures |r.0| > 0
    ensures |r.1| <= 1
  {
    if scope.all then ([KwTrue], [])
    else if |scope.orgIds| == 0 then
      (if scope.unowned then [Is(IsNull(column))] else [KwFalse], [])
    else if scope.unowned then
      ([Open, Is(EqAny(column, paramIndex)), KwOr, Is(IsNull(column)), Close], [Ids(scope.orgIds)])
    else ([Is(EqAny(column, paramIndex))], [Ids(scope.orgIds)])
  }

  /** OrgScope.membershipSQL: a user is reached through the membership table. */
  function MembershipSql(scope: OrgScope, column: Column, paramIndex: nat): (r: (Clause, seq<Value>))
    ensures |r.0| > 0
    ensures |r.1| <= 1
  {
    if scope.all then ([KwTrue], [])
    else if |scope.orgIds| == 0 then
      (if scope.unowned then [Is(NotAMember(column))] else [KwFalse], [])
    else if scope.unowned then
      ([Open, Is(MemberOfAny(column, paramIndex)), KwOr, Is(NotAMember(column)), Close], [Ids(scope.orgIds)])
    else ([Is(MemberOfAny(column, paramIndex))], [Ids(scope.orgIds)])
  }

  /** andScope: the one place a tenant predicate is spliced into a statement. */
  function AndScope(query: Clause, scope: OrgScope, column: Column, args: seq<Value>): (r: (Clause, seq<Value>))
  {
    var (clause, scopeArgs) := Sql(scope, column, |args| + 1);
    (query + [KwAnd] + clause, args + scopeArgs)
  }

  /** The owner of a row as the in-memory check names it: NULL is the empty string. */
  function Owner(env: Env, column: Column): string
  {
    if column in env.row && env.row[column].Text? then env.row[column].text else ""
  }

  /** A UUID column: NULL, or a non-empty text. */
  predicate UuidColumn(env: Env, column: Column)
  {
    column in env.row ==> env.row[column].Text? && env.row[column].text != ""
  }

  /** The value the scope clause has on a row. */
  function ScopeValue(scope: OrgScope, env: Env, column: Column): Tri
  {
    if scope.all then True3
    else if column !in env.row then
      (if scope.unowned then True3 else if |scope.orgIds| == 0 then False3 else Unknown)
    else Tri3(scope.PermitsOrganization(Owner(env, column)))
  }

  /** Wherever the clause is spliced, its argument in its place, it is a unit whose
      value is the scope's decision about the row's owner. */
  lemma SqlIsUnit(scope: OrgScope, env: Env, column: Column, args: seq<Value>, more: seq<Value>)
    requires "" !in scope.orgIds && UuidColumn(env, column)
    ensures var (clause, scopeArgs) := Sql(scope, column, |args| + 1);
            Unit(clause, ScopeValue(scope, env, column), env, args + scopeArgs + more)
  {
    var (clause, scopeArgs) := Sql(scope, column, |args| + 1);
    var bound := args + scopeArgs + more;
    KeywordIsUnit(env, bound);
    var any, none := EqAny(column, |args| + 1), IsNull(column);
    AtomIsUnit(any, env, bound);
    AtomIsUnit(none, env, bound);
    ParenthesisedOrIsUnit(any, none, env, bound);
    if !scope.all && |scope.orgIds| > 0 {
      assert Arg(bound, |args| + 1) == Some(Ids(scope.orgIds));
    }
  }

  /** The clause selects a row exactly when the in-memory check admits its owner, both
      comparing identifiers as they are written. */
  lemma SqlAgreesWithPermits(scope: OrgScope, env: Env, column: Column)
    requires "" !in scope.orgIds && UuidColumn(env, column)
    ensures var (clause, args) := Sql(scope, column, 1);
            Selects(clause, env, args) <==> scope.PermitsOrganization(Owner(env, column))
  {
    var (clause, args) := Sql(scope, column, 1);
    SqlIsUnit(scope, env, column, [], []);
    assert [] + args + [] == args;
    UnitIsConjunction(clause, ScopeValue(scope, env, column), env, args);
    ConjunctionWhere(clause, ScopeValue(scope, env, column), env, args);
  }

  /** The clause is unsatisfiable exactly for the scopes that say so. */
  lemma SqlUnsatisfiableIffMatchesNothing(scope: OrgScope, column: Column)
    requires scope.Valid()
    ensures var (clause, args) := Sql(scope, column, 1);
            scope.MatchesNothing() <==>
            forall env: Env :: UuidColumn(env, column) ==> !Selects(clause, env, args)
  {
    var (clause, args) := Sql(scope, column, 1);
    forall env: Env | UuidColumn(env, column)
      ensures Selects(clause, env, args) <==> scope.PermitsOrganization(Owner(env, column))
    {
      SqlAgreesWithPermits(scope, env, column);
    }
    if !scope.MatchesNothing() {
      var env := if scope.all || scope.unowned then Env(map[], {}, map[]) else Env(map[column := Text(scope.orgIds[0])], {}, map[]);
      assert UuidColumn(env, column) && scope.PermitsOrganization(Owner(env, column));
      assert Selects(clause, env, args);
    }
  }

  // ---- identifiers as UUIDs -----------------------------------------------

  /** The other spellings of identifiers: what the database reads each as. */
  type Spelling = m: map<string, string> | Respells(m) witness map[]

  predicate Respells(m: map<string, string>)
  {
    forall s :: s in m ==> m[s] != "" && m[s] !in m
  }

  function Canon(spelling: Spelling, id: string): string
  {
    if id in spelling then spelling[id] else id
  }

  /** The scope the database sees once the bound array is cast to uuid[]. */
  function AsUuids(spelling: Spelling, scope: OrgScope): (cast: OrgScope)
    ensures |cast.orgIds| == |scope.orgIds|
    ensures forall i :: 0 <= i < |scope.orgIds| ==> cast.orgIds[i] == Canon(spelling, scope.orgIds[i])
  {
    scope.(orgIds := seq(|scope.orgIds|, i requires 0 <= i < |scope.orgIds| => Canon(spelling, scope.orgIds[i])))
  }

  /** A stored identifier is in canonical form. */
  predicate StoredUuid(spelling: Spelling, env: Env, column: Column)
  {
    UuidColumn(env, column) && Owner(env, column) !in spelling
  }

  /** The rendered clause over the cast array selects the row. */
  predicate SelectsUuid(spelling: Spelling, scope: OrgScope, env: Env, column: Column)
  {
    Selects(Sql(scope, column, 1).0, env, Sql(AsUuids(spelling, scope), column, 1).1)
  }

  lemma CastSelects(spelling: Spelling, scope: OrgScope, env: Env, column: Column)
    requires scope.Valid() && StoredUuid(spelling, env, column)
    ensures SelectsUuid(spelling, scope, env, column) <==> AsUuids(spelling, scope).PermitsOrganization(Owner(env, column))
  {
    var cast := AsUuids(spelling, scope);
    forall i | 0 <= i < |cast.orgIds| ensures cast.orgIds[i] != "" {
      assert scope.orgIds[i] in scope.orgIds;
    }
    assert Sql(cast, column, 1).0 == Sql(scope, column, 1).0;
    SqlAgreesWithPermits(cast, env, column);
  }

  /** The database compares UUIDs, the in-memory check texts. What the check admits the
      clause always selects; the clause selects a row the check refuses exactly when a
      scope that is not platform-wide names the row's owner in another spelling only. */
  lemma ClauseSelectsMore(spelling: Spelling, scope: OrgScope, env: Env, column: Column)
    requires scope.Valid() && StoredUuid(spelling, env, column)
    ensures var owner := Owner(env, column);
            SelectsUuid(spelling, scope, env, column) <==>
              scope.PermitsOrganization(owner) ||
              (owner != "" && exists id :: id in scope.orgIds && Canon(spelling, id) == owner)
  {
    CastSelects(spelling, scope, env, column);
    var owner, cast := Owner(env, column), AsUuids(spelling, scope);
    if owner in cast.orgIds {
      var i :| 0 <= i < |cast.orgIds| && cast.orgIds[i] == owner;
      assert scope.orgIds[i] in scope.orgIds && Canon(spelling, scope.orgIds[i]) == owner;
    }
    forall id | id in scope.orgIds && Canon(spelling, id) == owner ensures owner in cast.orgIds {
      var i :| 0 <= i < |scope.orgIds| && scope.orgIds[i] == id;
      assert cast.orgIds[i] == owner;
    }
  }

  /** So they agree on every row exactly for the scopes that hold the canonical form of
      each identifier they hold. */
  lemma AgreeIffCanonical(spelling: Spelling, scope: OrgScope, column: Column)
    requires scope.Valid()
    ensures (forall env: Env :: StoredUuid(spelling, env, column) ==>
              (SelectsUuid(spelling, scope, env, column) <==> scope.PermitsOrganization(Owner(env, column)))) <==>
            scope.all || forall id :: id in scope.orgIds ==> Canon(spelling, id) in scope.orgIds
  {
    forall env: Env | StoredUuid(spelling, env, column)
      ensures scope.all || (forall id :: id in scope.orgIds ==> Canon(spelling, id) in scope.orgIds) ==>
                (SelectsUuid(spelling, scope, env, column) <==> scope.PermitsOrganization(Owner(env, column)))
    {
      ClauseSelectsMore(spelling, scope, env, column);
    }
    if id :| !scope.all && id in scope.orgIds && Canon(spelling, id) !in scope.orgIds {
      var env := Env(map[column := Text(Canon(spelling, id))], {}, map[]);
      assert StoredUuid(spelling, env, column) && Owner(env, column) == Canon(spelling, id);
      ClauseSelectsMore(spelling, scope, env, column);
      assert SelectsUuid(spelling, scope, env, column) && !scope.PermitsOrganization(Owner(env, column));
    }
  }

  /** What the membership scope means: platform-wide, or sharing an organization in
      scope, or belonging to none when the scope admits unowned users. */
  ghost predicate ReachesUser(scope: OrgScope, env: Env, user: string)
  {
    || scope.all
    || (exists org :: org != "" && (user, org) in env.members && scope.PermitsOrganization(org))
    || ((forall org :: (user, org) !in env.members) && scope.PermitsOrganization(""))
  }

  lemma MembershipSqlAgrees(scope: OrgScope, env: Env, column: Column, user: string)
    requires scope.Valid() && Field(env, column) == Some(Text(user))
    requires forall m :: m in env.members ==> m.1 != ""
    ensures var (clause, args) := MembershipSql(scope, column, 1);
            Selects(clause, env, args) <==> ReachesUser(scope, env, user)
  {
    var (clause, args) := MembershipSql(scope, column, 1);
    KeywordIsUnit(env, args);
    var some, none := MemberOfAny(column, 1), NotAMember(column);
    AtomIsUnit(some, env, args);
    AtomIsUnit(none, env, args);
    ParenthesisedOrIsUnit(some, none, env, args);
    assert AtomValue(none, env, args) == Tri3(forall org :: (user, org) !in env.members) by {
      if org :| (user, org) in env.members {
        assert Field(env, column) == Some(Text((user, org).0));
      }
    }
    if |scope.orgIds| > 0 && !scope.all {
      assert AtomValue(some, env, args) ==
             Tri3(exists org :: org != "" && (user, org) in env.members && scope.PermitsOrganization(org)) by {
        if org :| org != "" && (user, org) in env.members && scope.PermitsOrganization(org) {
          assert (user, org).1 in scope.orgIds;
        }
      }
    }
    var v: Tri :| Unit(clause, v, env, args) && (v == True3 <==> ReachesUser(scope, env, user));
    UnitIsConjunction(clause, v, env, args);
    ConjunctionWhere(clause, v, env, args);
  }
}
