/** WHERE clauses as the token sequences the repositories splice together, and the
    reference reader that gives them PostgreSQL's meaning: OR binds weakest, then
    AND, comparisons bind tightest, and NULL makes a comparison unknown. */
module SqlWhere {
  import opened Common
  import LikePattern

  datatype Value = Text(text: string) | Ids(ids: seq<string>) | Time(time: int) | Count(n: int)

  type Column = string

  /** A row (an absent column is NULL) beside the membership table, under the database's
      case folding. */
  datatype Env = Env(row: map<Column, Value>, members: set<(string, string)>, folding: LikePattern.Folding)

  datatype Atom =
    | IsNull(col: Column)
    | EqAny(col: Column, k: nat)        // col = ANY($k)
    | Eq(col: Column, k: nat)
    | AtLeast(col: Column, k: nat)
    | AtMost(col: Column, k: nat)
    | ILike(col: Column, k: nat)
    | MemberOfAny(col: Column, k: nat)  // EXISTS over organization_members
    | NotAMember(col: Column)           // NOT EXISTS over organization_members

  datatype Token = KwTrue | KwFalse | Open | Close | KwAnd | KwOr | Is(atom: Atom)

  type Clause = seq<Token>

  // ---- three-valued logic -------------------------------------------------

  datatype Tri = True3 | False3 | Unknown

  function Tri3(b: bool): Tri
  {
    if b then True3 else False3
  }

  function And3(a: Tri, b: Tri): Tri
  {
    if a == False3 || b == False3 then False3
    else if a == Unknown || b == Unknown then Unknown
    else True3
  }

  function Or3(a: Tri, b: Tri): Tri
  {
    if a == True3 || b == True3 then True3
    else if a == Unknown || b == Unknown then Unknown
    else False3
  }

  // ---- comparisons --------------------------------------------------------

  /** The value bound to $k. */
  function Arg(args: seq<Value>, k: nat): Option<Value>
  {
    if 1 <= k <= |args| then Some(args[k - 1]) else None
  }

  function Field(env: Env, col: Column): Option<Value>
  {
    if col in env.row then Some(env.row[col]) else None
  }

  function Compare(folding: LikePattern.Folding, atom: Atom, field: Value, arg: Value): Tri
  {
    match (atom, field, arg)
    case (EqAny(_, _), Text(t), Ids(ids)) => Tri3(t in ids)
    case (Eq(_, _), Text(t), Text(u)) => Tri3(t == u)
    case (AtLeast(_, _), Time(t), Time(u)) => Tri3(t >= u)
    case (AtMost(_, _), Time(t), Time(u)) => Tri3(t <= u)
    case (ILike(_, _), Text(t), Text(p)) => Tri3(LikePattern.ILike(folding, t, p))
    case _ => Unknown
  }

  function AtomValue(atom: Atom, env: Env, args: seq<Value>): Tri
  {
    match atom
    case IsNull(col) => Tri3(col !in env.row)
    case NotAMember(col) =>
      Tri3(!exists m :: m in env.members && Field(env, col) == Some(Text(m.0)))
    case MemberOfAny(col, k) =>
      Tri3(exists m :: m in env.members && Field(env, col) == Some(Text(m.0)) &&
                       Arg(args, k).Some? && Arg(args, k).value.Ids? && m.1 in Arg(args, k).value.ids)
    case _ =>
      if atom.col !in env.row || Arg(args, atom.k).None? then Unknown
      else Compare(env.folding, atom, env.row[atom.col], Arg(args, atom.k).value)
  }

  /** Every placeholder in the clause is bound. */
  predicate Bound(clause: Clause, args: seq<Value>)
  {
    forall i :: 0 <= i < |clause| ==>
      (clause[i].Is? && !clause[i].atom.IsNull? && !clause[i].atom.NotAMember? ==> 1 <= clause[i].atom.k <= |args|)
  }

  // ---- the reader ---------------------------------------------------------

  type Reading = Option<(Tri, Clause)>

  function ReadOr(ts: Clause, env: Env, args: seq<Value>): (r: Reading)
    ensures r.Some? ==> |r.value.1| < |ts|
    decreases |ts|, 2
  {
    var left := ReadAnd(ts, env, args);
    if left.Some? && |left.value.1| > 0 && left.value.1[0] == KwOr then
      var right := ReadOr(left.value.1[1..], env, args);
      if right.None? then None else Some((Or3(left.value.0, right.value.0), right.value.1))
    else left
  }

  function ReadAnd(ts: Clause, env: Env, args: seq<Value>): (r: Reading)
    ensures r.Some? ==> |r.value.1| < |ts|
    decreases |ts|, 1
  {
    var left := ReadFactor(ts, env, args);
    if left.Some? && |left.value.1| > 0 && left.value.1[0] == KwAnd then
      var right := ReadAnd(left.value.1[1..], env, args);
      if right.None? then None else Some((And3(left.value.0, right.value.0), right.value.1))
    else left
  }

  function ReadFactor(ts: Clause, env: Env, args: seq<Value>): (r: Reading)
    ensures r.Some? ==> |r.value.1| < |ts|
    decreases |ts|, 0
  {
    if |ts| == 0 then None
    else match ts[0]
      case KwTrue => Some((True3, ts[1..]))
      case KwFalse => Some((False3, ts[1..]))
      case Is(atom) => Some((AtomValue(atom, env, args), ts[1..]))
      case Open =>
        var inner := ReadOr(ts[1..], env, args);
        if inner.Some? && |inner.value.1| > 0 && inner.value.1[0] == Close
        then Some((inner.value.0, inner.value.1[1..])) else None
      case _ => None
  }

  /** The value of a complete WHERE clause; None is a syntax error. */
  function Where(ts: Clause, env: Env, args: seq<Value>): Option<Tri>
  {
    var r := ReadOr(ts, env, args);
    if r.Some? && r.value.1 == [] then Some(r.value.0) else None
  }

  /** The row is in the result. */
  predicate Selects(ts: Clause, env: Env, args: seq<Value>)
  {
    Where(ts, env, args) == Some(True3)
  }

  // ---- splicing -----------------------------------------------------------

  /** The clause is a unit: whatever follows, it is read first and alone. */
  ghost predicate Unit(c: Clause, v: Tri, env: Env, args: seq<Value>)
  {
    forall rest: Clause :: ReadFactor(c + rest, env, args) == Some((v, rest))
  }

  /** The query so far is a conjunction with value v that the next AND extends. */
  ghost predicate Conjunction(q: Clause, v: Tri, env: Env, args: seq<Value>)
  {
    forall rest: Clause :: ReadAnd(q + rest, env, args) == ExtendWith(v, rest, env, args)
  }

  ghost function ExtendWith(v: Tri, rest: Clause, env: Env, args: seq<Value>): Reading
  {
    if |rest| > 0 && rest[0] == KwAnd then
      var more := ReadAnd(rest[1..], env, args);
      if more.None? then None else Some((And3(v, more.value.0), more.value.1))
    else Some((v, rest))
  }

  lemma UnitIsConjunction(c: Clause, v: Tri, env: Env, args: seq<Value>)
    requires Unit(c, v, env, args)
    ensures Conjunction(c, v, env, args)
  {
    forall rest: Clause ensures ReadAnd(c + rest, env, args) == ExtendWith(v, rest, env, args) {
      assert ReadFactor(c + rest, env, args) == Some((v, rest));
    }
  }

  lemma AndAssociates(a: Tri, b: Tri, c: Tri)
    ensures And3(a, And3(b, c)) == And3(And3(a, b), c)
  {
  }

  /** Extending by AND and a unit is extending by the unit's value. */
  lemma SpliceOne(v: Tri, c: Clause, w: Tri, rest: Clause, env: Env, args: seq<Value>)
    requires ReadFactor(c + rest, env, args) == Some((w, rest))
    ensures ExtendWith(v, [KwAnd] + (c + rest), env, args) == ExtendWith(And3(v, w), rest, env, args)
  {
    assert ([KwAnd] + (c + rest))[1..] == c + rest;
    if |rest| > 0 && rest[0] == KwAnd {
      var more := ReadAnd(rest[1..], env, args);
      if more.Some? { AndAssociates(v, w, more.value.0); }
    }
  }

  lemma Reassociate(q: Clause, c: Clause, rest: Clause)
    ensures q + [KwAnd] + c + rest == q + ([KwAnd] + (c + rest))
  {
  }

  lemma ConjunctionAt(q: Clause, v: Tri, rest: Clause, env: Env, args: seq<Value>)
    requires Conjunction(q, v, env, args)
    ensures ReadAnd(q + rest, env, args) == ExtendWith(v, rest, env, args)
  {
  }

  lemma UnitAt(c: Clause, w: Tri, rest: Clause, env: Env, args: seq<Value>)
    requires Unit(c, w, env, args)
    ensures ReadFactor(c + rest, env, args) == Some((w, rest))
  {
  }

  lemma SpliceAt(q: Clause, v: Tri, c: Clause, w: Tri, rest: Clause, env: Env, args: seq<Value>)
    requires Conjunction(q, v, env, args) && Unit(c, w, env, args)
    ensures ReadAnd(q + [KwAnd] + c + rest, env, args) == ExtendWith(And3(v, w), rest, env, args)
  {
    UnitAt(c, w, rest, env, args);
    SpliceOne(v, c, w, rest, env, args);
    ConjunctionAt(q, v, [KwAnd] + (c + rest), env, args);
    Reassociate(q, c, rest);
  }

  /** `query + " AND " + clause` means the conjunction. */
  lemma SpliceUnit(q: Clause, v: Tri, c: Clause, w: Tri, env: Env, args: seq<Value>)
    requires Conjunction(q, v, env, args) && Unit(c, w, env, args)
    ensures Conjunction(q + [KwAnd] + c, And3(v, w), env, args)
  {
    forall rest: Clause
      ensures ReadAnd(q + [KwAnd] + c + rest, env, args) == ExtendWith(And3(v, w), rest, env, args)
    {
      SpliceAt(q, v, c, w, rest, env, args);
    }
  }

  lemma ConjunctionWhere(q: Clause, v: Tri, env: Env, args: seq<Value>)
    requires Conjunction(q, v, env, args)
    ensures Where(q, env, args) == Some(v)
  {
    assert q + [] == q;
    assert ReadAnd(q + [], env, args) == ExtendWith(v, [], env, args);
  }

  lemma AtomIsUnit(atom: Atom, env: Env, args: seq<Value>)
    ensures Unit([Is(atom)], AtomValue(atom, env, args), env, args)
  {
    forall rest: Clause
      ensures ReadFactor([Is(atom)] + rest, env, args) == Some((AtomValue(atom, env, args), rest))
    {
      assert ([Is(atom)] + rest)[1..] == rest;
    }
  }

  lemma KeywordIsUnit(env: Env, args: seq<Value>)
    ensures Unit([KwTrue], True3, env, args) && Unit([KwFalse], False3, env, args)
  {
    forall rest: Clause
      ensures ReadFactor([KwTrue] + rest, env, args) == Some((True3, rest))
      ensures ReadFactor([KwFalse] + rest, env, args) == Some((False3, rest))
    {
      assert ([KwTrue] + rest)[1..] == rest && ([KwFalse] + rest)[1..] == rest;
    }
  }

  /** A parenthesised disjunction is a unit; without the parentheses it would
      swallow every AND that follows. */
  lemma ParenthesisedOrIsUnit(a: Atom, b: Atom, env: Env, args: seq<Value>)
    ensures Unit([Open, Is(a), KwOr, Is(b), Close], Or3(AtomValue(a, env, args), AtomValue(b, env, args)), env, args)
  {
    var v, w := AtomValue(a, env, args), AtomValue(b, env, args);
    forall rest: Clause
      ensures ReadFactor([Open, Is(a), KwOr, Is(b), Close] + rest, env, args) == Some((Or3(v, w), rest))
    {
      var ts := [Open, Is(a), KwOr, Is(b), Close] + rest;
      var closing := [Close] + rest;
      var right := [Is(b)] + closing;
      var left := [Is(a)] + ([KwOr] + right);
      assert ts[1..] == left && left[1..] == [KwOr] + right && ([KwOr] + right)[1..] == right;
      assert right[1..] == closing && closing[1..] == rest;
      assert ReadAnd(right, env, args) == Some((w, closing));
      assert ReadOr(right, env, args) == Some((w, closing));
      assert ReadAnd(left, env, args) == Some((v, [KwOr] + right));
      assert ReadOr(left, env, args) == Some((Or3(v, w), closing));
    }
  }

  /** Two conjunctions joined without parentheses are a different query: one row
      outside the scope passes the unparenthesised splice. */
  lemma BareOrLeaks(a: Atom, b: Atom, c: Atom, env: Env, args: seq<Value>)
    requires AtomValue(a, env, args) == True3 && AtomValue(c, env, args) == False3
    ensures Selects([Is(a), KwOr, Is(b), KwAnd, Is(c)], env, args)
    ensures !Selects([Open, Is(a), KwOr, Is(b), Close] + [KwAnd] + [Is(c)], env, args)
  {
    var right := [Is(b), KwAnd, Is(c)];
    var ts := [Is(a), KwOr] + right;
    assert ts == [Is(a), KwOr, Is(b), KwAnd, Is(c)];
    assert right[1..] == [KwAnd, Is(c)] && right[1..][1..] == [Is(c)] && [Is(c)][1..] == [];
    assert ReadAnd([Is(c)], env, args) == Some((False3, []));
    assert ReadAnd(right, env, args) == Some((False3, []));
    assert ReadOr(right, env, args) == Some((False3, []));
    assert ts[1..] == [KwOr] + right && ts[1..][1..] == right;
    assert ReadAnd(ts, env, args) == Some((True3, [KwOr] + right));
    ParenthesisedOrIsUnit(a, b, env, args);
    AtomIsUnit(c, env, args);
    var v := Or3(AtomValue(a, env, args), AtomValue(b, env, args));
    UnitIsConjunction([Open, Is(a), KwOr, Is(b), Close], v, env, args);
    SpliceUnit([Open, Is(a), KwOr, Is(b), Close], v, [Is(c)], False3, env, args);
    ConjunctionWhere([Open, Is(a), KwOr, Is(b), Close] + [KwAnd] + [Is(c)], And3(v, False3), env, args);
  }
}
