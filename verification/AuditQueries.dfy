/** The audit log's list query: seven optional filters behind a mandatory scope,
    with hand-numbered placeholders beside a growing argument list. */
module AuditQueries {
  import opened Common
  import opened SqlWhere
  import opened OrgScopes
  import LikePattern

  datatype AuditFilters = AuditFilters(
    userId: Option<string>, userEmail: Option<string>, organizationId: Option<string>,
    action: Option<string>, resourceType: Option<string>,
    startDate: Option<int>, endDate: Option<int>)

  const ORGANIZATION_ID: Column := "al.organization_id"
  const USER_ID: Column := "al.user_id"
  const USER_EMAIL: Column := "u.email"
  const ACTION: Column := "al.action"
  const RESOURCE_TYPE: Column := "al.resource_type"
  const CREATED_AT: Column := "al.created_at"

  /** The page statement: its WHERE clause and the placeholders of LIMIT and OFFSET. */
  datatype PageQuery = PageQuery(where: Clause, limitParam: nat, offsetParam: nat)

  // ---- what the filters mean ---------------------------------------------

  const FILTERS := 7

  function FilterColumn(j: nat): Column
    requires j < FILTERS
  {
    [USER_ID, USER_EMAIL, ORGANIZATION_ID, ACTION, RESOURCE_TYPE, CREATED_AT, CREATED_AT][j]
  }

  predicate Present(f: AuditFilters, j: nat)
    requires j < FILTERS
  {
    match j
    case 0 => f.userId.Some?
    case 1 => f.userEmail.Some?
    case 2 => f.organizationId.Some?
    case 3 => f.action.Some?
    case 4 => f.resourceType.Some?
    case 5 => f.startDate.Some?
    case _ => f.endDate.Some?
  }

  /** Does a non-NULL field satisfy the filter? */
  predicate Admits(f: AuditFilters, j: nat, field: Value, folding: LikePattern.Folding)
    requires j < FILTERS && Present(f, j)
  {
    match j
    case 0 => field == Text(f.userId.value)
    case 1 =>
      field.Text? && LikePattern.Contains(LikePattern.Fold(folding, field.text), LikePattern.Fold(folding, f.userEmail.value))
    case 2 => field == Text(f.organizationId.value)
    case 3 => field == Text(f.action.value)
    case 4 => field == Text(f.resourceType.value)
    case 5 => field.Time? && f.startDate.value <= field.time
    case _ => field.Time? && field.time <= f.endDate.value
  }

  /** The row satisfies every filter the caller set: what each is about is in its own
      column of the joined row, and a NULL satisfies none. */
  ghost predicate Matches(f: AuditFilters, env: Env)
  {
    && (f.userId.Some? ==> Field(env, "al.user_id") == Some(Text(f.userId.value)))
    && (f.userEmail.Some? ==> HasEmailLike(env, f.userEmail.value))
    && (f.organizationId.Some? ==> Field(env, "al.organization_id") == Some(Text(f.organizationId.value)))
    && (f.action.Some? ==> Field(env, "al.action") == Some(Text(f.action.value)))
    && (f.resourceType.Some? ==> Field(env, "al.resource_type") == Some(Text(f.resourceType.value)))
    && (f.startDate.Some? ==> CreatedWithin(env, f.startDate, None))
    && (f.endDate.Some? ==> CreatedWithin(env, None, f.endDate))
  }

  /** The joined user's address contains the term, letter case aside. */
  ghost predicate HasEmailLike(env: Env, term: string)
  {
    var email := Field(env, "u.email");
    && email.Some? && email.value.Text?
    && exists i, j :: 0 <= i <= j <= |email.value.text| &&
                      LikePattern.Fold(env.folding, email.value.text[i..j]) == LikePattern.Fold(env.folding, term)
  }

  ghost predicate CreatedWithin(env: Env, from: Option<int>, to: Option<int>)
  {
    var created := Field(env, "al.created_at");
    && created.Some? && created.value.Time?
    && (from.Some? ==> from.value <= created.value.time) && (to.Some? ==> created.value.time <= to.value)
  }

  /** The column types of the joined row. */
  ghost predicate WellTyped(env: Env)
  {
    && UuidColumn(env, "al.organization_id")
    && (forall col :: col in {"al.user_id", "u.email", "al.action", "al.resource_type"} && col in env.row ==> env.row[col].Text?)
    && ("al.created_at" in env.row ==> env.row["al.created_at"].Time?)
  }

  /** Filter by filter, as the builder takes them. */
  ghost predicate MatchesEach(f: AuditFilters, env: Env)
  {
    forall j: nat :: j < FILTERS ==> Meets(f, env, j)
  }

  ghost predicate Meets(f: AuditFilters, env: Env, j: nat)
    requires j < FILTERS
  {
    Present(f, j) ==> FilterColumn(j) in env.row && Admits(f, j, env.row[FilterColumn(j)], env.folding)
  }

  lemma MatchesIsEach(f: AuditFilters, env: Env)
    requires WellTyped(env)
    ensures Matches(f, env) <==> MatchesEach(f, env)
  {
    if f.userEmail.Some? && USER_EMAIL in env.row {
      EmailContains(env.folding, env.row[USER_EMAIL].text, f.userEmail.value);
    }
    assert MatchesEach(f, env) <==>
      && Meets(f, env, 0) && Meets(f, env, 1) && Meets(f, env, 2) && Meets(f, env, 3)
      && Meets(f, env, 4) && Meets(f, env, 5) && Meets(f, env, 6);
  }

  lemma EmailContains(folding: LikePattern.Folding, text: string, term: string)
    ensures LikePattern.Contains(LikePattern.Fold(folding, text), LikePattern.Fold(folding, term)) <==>
            exists i, j :: 0 <= i <= j <= |text| && LikePattern.Fold(folding, text[i..j]) == LikePattern.Fold(folding, term)
  {
    var folded, t := LikePattern.Fold(folding, text), LikePattern.Fold(folding, term);
    forall i, j | 0 <= i <= j <= |text| ensures LikePattern.Fold(folding, text[i..j]) == folded[i..j] {
    }
    if i :| 0 <= i <= |folded| && LikePattern.StartsWith(folded[i..], t) {
      assert folded[i..][..|t|] == folded[i..i + |t|];
      assert LikePattern.Fold(folding, text[i..i + |t|]) == t;
    }
    if i, j :| 0 <= i <= j <= |text| && LikePattern.Fold(folding, text[i..j]) == t {
      assert folded[i..][..|t|] == folded[i..j];
      assert LikePattern.StartsWith(folded[i..], t);
    }
  }

  // ---- the value of the query built so far --------------------------------

  function FilterValue(f: AuditFilters, j: nat, env: Env): Tri
    requires j < FILTERS && Present(f, j)
  {
    if FilterColumn(j) !in env.row then Unknown else Tri3(Admits(f, j, env.row[FilterColumn(j)], env.folding))
  }

  /** The conjunction of the scope and the first n filters. */
  function QueryValue(scope: OrgScope, f: AuditFilters, n: nat, env: Env): Tri
    requires n <= FILTERS
  {
    if n == 0 then And3(True3, ScopeValue(scope, env, ORGANIZATION_ID))
    else if Present(f, n - 1) then And3(QueryValue(scope, f, n - 1, env), FilterValue(f, n - 1, env))
    else QueryValue(scope, f, n - 1, env)
  }

  /** The tokens, with their arguments and any arguments appended later, are that
      conjunction. */
  ghost predicate Means(q: Clause, args: seq<Value>, scope: OrgScope, f: AuditFilters, n: nat)
    requires n <= FILTERS
  {
    forall env: Env, more: seq<Value> :: WellTyped(env) ==>
      Conjunction(q, QueryValue(scope, f, n, env), env, args + more)
  }

  lemma {:induction false} QueryValueTrue(scope: OrgScope, f: AuditFilters, n: nat, env: Env)
    requires n <= FILTERS && scope.Valid() && WellTyped(env)
    ensures QueryValue(scope, f, n, env) == True3 <==>
            scope.PermitsOrganization(Owner(env, ORGANIZATION_ID)) && forall j: nat :: j < n ==> Meets(f, env, j)
  {
    if n > 0 {
      QueryValueTrue(scope, f, n - 1, env);
      assert (forall j: nat :: j < n ==> Meets(f, env, j)) <==> (forall j: nat :: j < n - 1 ==> Meets(f, env, j)) && Meets(f, env, n - 1);
    }
  }

  /** The scope's clause at the front of a query, under its own arguments. */
  lemma ScopeIsUnit(scope: OrgScope, env: Env, more: seq<Value>)
    requires scope.Valid() && WellTyped(env)
    ensures var (clause, args) := Sql(scope, ORGANIZATION_ID, 1);
            Unit(clause, ScopeValue(scope, env, ORGANIZATION_ID), env, args + more)
  {
    var args := Sql(scope, ORGANIZATION_ID, 1).1;
    SqlIsUnit(scope, env, ORGANIZATION_ID, [], more);
    assert [] + args + more == args + more;
  }

  lemma ScopeOpens(scope: OrgScope, f: AuditFilters, env: Env, more: seq<Value>)
    requires scope.Valid() && WellTyped(env)
    ensures var (q, args) := AndScope([KwTrue], scope, ORGANIZATION_ID, []);
            Conjunction(q, QueryValue(scope, f, 0, env), env, args + more)
  {
    var (clause, args) := Sql(scope, ORGANIZATION_ID, 1);
    ScopeIsUnit(scope, env, more);
    OpenWith(clause, ScopeValue(scope, env, ORGANIZATION_ID), env, args + more);
    assert [] + args == args;
  }

  /** `WHERE TRUE AND clause`. */
  lemma OpenWith(clause: Clause, v: Tri, env: Env, args: seq<Value>)
    requires Unit(clause, v, env, args)
    ensures Conjunction([KwTrue] + [KwAnd] + clause, And3(True3, v), env, args)
  {
    KeywordIsUnit(env, args);
    UnitIsConjunction([KwTrue], True3, env, args);
    SpliceUnit([KwTrue], True3, clause, v, env, args);
  }

  lemma ScopeBound(scope: OrgScope)
    requires scope.Valid()
    ensures var (q, args) := AndScope([KwTrue], scope, ORGANIZATION_ID, []);
            Bound(q, args)
  {
  }

  lemma MeansScope(scope: OrgScope, f: AuditFilters)
    requires scope.Valid()
    ensures var (q, args) := AndScope([KwTrue], scope, ORGANIZATION_ID, []);
            Means(q, args, scope, f, 0) && Bound(q, args)
  {
    var (q, args) := AndScope([KwTrue], scope, ORGANIZATION_ID, []);
    forall env: Env, more: seq<Value> | WellTyped(env)
      ensures Conjunction(q, QueryValue(scope, f, 0, env), env, args + more)
    {
      ScopeOpens(scope, f, env, more);
    }
    ScopeBound(scope);
  }

  /** The comparison each filter appends. */
  function FilterAtom(j: nat, k: nat): Atom
    requires j < FILTERS
  {
    match j
    case 1 => ILike(USER_EMAIL, k)
    case 5 => AtLeast(CREATED_AT, k)
    case 6 => AtMost(CREATED_AT, k)
    case _ => Eq(FilterColumn(j), k)
  }

  /** The argument each filter binds. */
  function FilterArg(f: AuditFilters, j: nat): Value
    requires j < FILTERS && Present(f, j)
  {
    match j
    case 0 => Text(f.userId.value)
    case 1 => Text("%" + LikePattern.EscapeLikePattern(f.userEmail.value) + "%")
    case 2 => Text(f.organizationId.value)
    case 3 => Text(f.action.value)
    case 4 => Text(f.resourceType.value)
    case 5 => Time(f.startDate.value)
    case _ => Time(f.endDate.value)
  }

  /** With its argument at its own placeholder, the comparison is the filter. */
  lemma AtomIsFilter(f: AuditFilters, j: nat, env: Env, args: seq<Value>, more: seq<Value>)
    requires j < FILTERS && Present(f, j) && WellTyped(env)
    ensures AtomValue(FilterAtom(j, |args| + 1), env, args + [FilterArg(f, j)] + more) == FilterValue(f, j, env)
  {
    var bound := args + [FilterArg(f, j)] + more;
    assert Arg(bound, |args| + 1) == Some(FilterArg(f, j));
    if j == 1 && USER_EMAIL in env.row {
      assert FilterColumn(1) == USER_EMAIL;
      LikePattern.ILikeSubstring(env.folding, env.row[USER_EMAIL].text, f.userEmail.value);
    }
  }

  lemma MeansFilter(q: Clause, args: seq<Value>, scope: OrgScope, f: AuditFilters, j: nat)
    requires j < FILTERS && Means(q, args, scope, f, j) && Bound(q, args)
    ensures Present(f, j) ==>
              var q' := q + [KwAnd] + [Is(FilterAtom(j, |args| + 1))];
              Means(q', args + [FilterArg(f, j)], scope, f, j + 1) && Bound(q', args + [FilterArg(f, j)])
    ensures !Present(f, j) ==> Means(q, args, scope, f, j + 1)
  {
    if Present(f, j) {
      var atom := FilterAtom(j, |args| + 1);
      var args' := args + [FilterArg(f, j)];
      forall env: Env, more: seq<Value> | WellTyped(env)
        ensures Conjunction(q + [KwAnd] + [Is(atom)], QueryValue(scope, f, j + 1, env), env, args' + more)
      {
        assert args' + more == args + ([FilterArg(f, j)] + more);
        assert Conjunction(q, QueryValue(scope, f, j, env), env, args + ([FilterArg(f, j)] + more));
        AtomIsFilter(f, j, env, args, more);
        AtomIsUnit(atom, env, args' + more);
        SpliceUnit(q, QueryValue(scope, f, j, env), [Is(atom)], FilterValue(f, j, env), env, args' + more);
      }
    } else {
      forall env: Env, more: seq<Value> | WellTyped(env)
        ensures Conjunction(q, QueryValue(scope, f, j + 1, env), env, args + more)
      {
      }
    }
  }

  /** A finished query selects exactly the rows in scope that match. */
  lemma MeansSelects(q: Clause, args: seq<Value>, more: seq<Value>, scope: OrgScope, f: AuditFilters, env: Env)
    requires scope.Valid() && Means(q, args, scope, f, FILTERS) && WellTyped(env)
    ensures Selects(q, env, args + more) <==>
            scope.PermitsOrganization(Owner(env, "al.organization_id")) && Matches(f, env)
  {
    MatchesIsEach(f, env);
    assert Conjunction(q, QueryValue(scope, f, FILTERS, env), env, args + more);
    ConjunctionWhere(q, QueryValue(scope, f, FILTERS, env), env, args + more);
    QueryValueTrue(scope, f, FILTERS, env);
  }

  /** The builder's variables between two filters: both statements read the same so
      far, the counter names the next free placeholder, and the text means the scope
      and the first n filters. */
  ghost predicate Stage(countQuery: Clause, query: Clause, args: seq<Value>, paramIndex: nat,
                        scope: OrgScope, f: AuditFilters, n: nat)
    requires n <= FILTERS
  {
    && countQuery == query
    && paramIndex == |args| + 1
    && Means(query, args, scope, f, n)
    && Bound(query, args)
  }

  /** One `if filters.X != nil` block: the comparison goes into both statements under
      the next placeholder, its value goes to the end of the arguments. */
  method AppendFilter(filters: AuditFilters, ghost scope: OrgScope, j: nat,
                      countQuery: Clause, query: Clause, args: seq<Value>, paramIndex: nat)
    returns (countQuery': Clause, query': Clause, args': seq<Value>, paramIndex': nat)
    requires j < FILTERS && Stage(countQuery, query, args, paramIndex, scope, filters, j)
    ensures Stage(countQuery', query', args', paramIndex', scope, filters, j + 1)
  {
    countQuery', query', args', paramIndex' := countQuery, query, args, paramIndex;
    MeansFilter(query, args, scope, filters, j);
    if Present(filters, j) {
      countQuery' := countQuery + [KwAnd] + [Is(FilterAtom(j, paramIndex))];
      query' := query + [KwAnd] + [Is(FilterAtom(j, paramIndex))];
      args' := args + [FilterArg(filters, j)];
      paramIndex' := paramIndex + 1;
    }
  }

  /** buildListAuditLogsQueries: whatever the filters, both statements bind every
      placeholder, select exactly the rows inside the scope that match, and differ
      only in the page's LIMIT and OFFSET. */
  method BuildListAuditLogsQueries(filters: AuditFilters, scope: OrgScope, limit: int, offset: int)
    returns (countQuery: Clause, countArgs: seq<Value>, page: PageQuery, listArgs: seq<Value>)
    requires scope.Valid()
    ensures Bound(countQuery, countArgs) && Bound(page.where, listArgs)
    ensures Arg(listArgs, page.limitParam) == Some(Count(limit))
    ensures Arg(listArgs, page.offsetParam) == Some(Count(offset))
    ensures forall env: Env :: WellTyped(env) ==>
              (Selects(countQuery, env, countArgs) <==>
               scope.PermitsOrganization(Owner(env, "al.organization_id")) && Matches(filters, env))
    ensures forall env: Env :: WellTyped(env) ==>
              (Selects(page.where, env, listArgs) <==>
               scope.PermitsOrganization(Owner(env, "al.organization_id")) && Matches(filters, env))
  {
    MeansScope(scope, filters);
    countQuery := AndScope([KwTrue], scope, ORGANIZATION_ID, []).0;
    var (query, args) := AndScope([KwTrue], scope, ORGANIZATION_ID, []);
    var paramIndex := |args| + 1;

    countQuery, query, args, paramIndex := AppendFilter(filters, scope, 0, countQuery, query, args, paramIndex);
    countQuery, query, args, paramIndex := AppendFilter(filters, scope, 1, countQuery, query, args, paramIndex);
    countQuery, query, args, paramIndex := AppendFilter(filters, scope, 2, countQuery, query, args, paramIndex);
    countQuery, query, args, paramIndex := AppendFilter(filters, scope, 3, countQuery, query, args, paramIndex);
    countQuery, query, args, paramIndex := AppendFilter(filters, scope, 4, countQuery, query, args, paramIndex);
    countQuery, query, args, paramIndex := AppendFilter(filters, scope, 5, countQuery, query, args, paramIndex);
    countQuery, query, args, paramIndex := AppendFilter(filters, scope, 6, countQuery, query, args, paramIndex);

    countArgs := args;
    page := PageQuery(query, paramIndex, paramIndex + 1);
    listArgs := args + [Count(limit), Count(offset)];

    forall env: Env | WellTyped(env)
      ensures Selects(countQuery, env, countArgs) <==>
              scope.PermitsOrganization(Owner(env, "al.organization_id")) && Matches(filters, env)
      ensures Selects(query, env, listArgs) <==>
              scope.PermitsOrganization(Owner(env, "al.organization_id")) && Matches(filters, env)
    {
      assert args + [] == args;
      MeansSelects(query, args, [], scope, filters, env);
      MeansSelects(query, args, [Count(limit), Count(offset)], scope, filters, env);
    }
  }
}
