/** Folding package-level string constants: repeated passes over a map in whatever order
    it is iterated, against what the declarations denote. */
module ConstFold {
  import opened Common

  /** The expression forms the fold distinguishes; Other stands for every other one. */
  datatype Expr =
    | StringLit(raw: string, unquoted: Option<string>)
    | OtherLit
    | Ident(name: string)
    | Paren(x: Expr)
    | Add(x: Expr, y: Expr)
    | OtherBinary(x: Expr, y: Expr)
    | Other

  /** One const or var specification: names with the values given for the first of them. */
  datatype ValueSpec = ValueSpec(names: seq<string>, values: seq<Expr>)

  type Declared = map<string, Expr>
  type Strings = map<string, string>

  function Unquoted(lit: Expr): string
    requires lit.StringLit?
  {
    lit.unquoted.GetOr(lit.raw)
  }

  function Concat(left: Option<string>, right: Option<string>): Option<string>
  {
    if left.None? || right.None? then None else Some(left.value + right.value)
  }

  /** evalString. */
  function EvalString(e: Expr, resolved: Strings): Option<string>
  {
    match e
    case StringLit(_, _) => Some(Unquoted(e))
    case Ident(name) => if name in resolved then Some(resolved[name]) else None
    case Paren(x) => EvalString(x, resolved)
    case Add(x, y) => Concat(EvalString(x, resolved), EvalString(y, resolved))
    case _ => None
  }

  /** What an expression denotes when names may be followed to their declarations n deep: a
      literal its unquoted text (its source text when that cannot be unquoted), a sum its
      operands' texts one after the other. */
  function Denotes(raw: Declared, e: Expr, n: nat): Option<string>
    decreases n, e
  {
    match e
    case StringLit(text, unquoted) => if unquoted.Some? then unquoted else Some(text)
    case Ident(name) => if n > 0 && name in raw then Denotes(raw, raw[name], n - 1) else None
    case Paren(x) => Denotes(raw, x, n)
    case Add(x, y) =>
      var left, right := Denotes(raw, x, n), Denotes(raw, y, n);
      if left.Some? && right.Some? then Some(left.value + right.value) else None
    case _ => None
  }

  /** The name has a finite derivation from literals and concatenations, of this value. */
  ghost predicate Derives(raw: Declared, name: string, value: string)
  {
    name in raw && exists n: nat :: Denotes(raw, raw[name], n) == Some(value)
  }

  lemma {:induction false} DeeperAgrees(raw: Declared, e: Expr, n: nat, m: nat)
    requires n <= m && Denotes(raw, e, n).Some?
    ensures Denotes(raw, e, m) == Denotes(raw, e, n)
    decreases n, e
  {
    match e
    case Ident(name) => DeeperAgrees(raw, raw[name], n - 1, m - 1);
    case Paren(x) => DeeperAgrees(raw, x, n, m);
    case Add(x, y) => DeeperAgrees(raw, x, n, m); DeeperAgrees(raw, y, n, m);
    case _ =>
  }

  /** A name denotes one string. */
  lemma DerivesOnce(raw: Declared, name: string, v: string, w: string)
    requires Derives(raw, name, v) && Derives(raw, name, w)
    ensures v == w
  {
    var n: nat :| Denotes(raw, raw[name], n) == Some(v);
    var m: nat :| Denotes(raw, raw[name], m) == Some(w);
    DeeperAgrees(raw, raw[name], n, if n < m then m else n);
    DeeperAgrees(raw, raw[name], m, if n < m then m else n);
  }

  // ---- the passes -----------------------------------------------------------

  /** Everything resolved so far denotes what it was resolved to, with a derivation no
      deeper than the number of names resolved. */
  ghost predicate SoundAt(raw: Declared, resolved: Strings, depth: nat)
  {
    forall name :: name in resolved ==> name in raw && Denotes(raw, raw[name], depth) == Some(resolved[name])
  }

  /** No declaration not yet resolved could be. */
  ghost predicate Closed(raw: Declared, resolved: Strings)
  {
    forall name :: name in raw && name !in resolved ==> EvalString(raw[name], resolved).None?
  }

  lemma {:induction false} EvalIsSound(raw: Declared, resolved: Strings, depth: nat, e: Expr)
    requires SoundAt(raw, resolved, depth) && EvalString(e, resolved).Some?
    ensures Denotes(raw, e, depth + 1) == EvalString(e, resolved)
    decreases e
  {
    match e
    case Paren(x) => EvalIsSound(raw, resolved, depth, x);
    case Add(x, y) => EvalIsSound(raw, resolved, depth, x); EvalIsSound(raw, resolved, depth, y);
    case _ =>
  }

  lemma SoundExtends(raw: Declared, resolved: Strings, name: string)
    requires SoundAt(raw, resolved, |resolved|) && name in raw && name !in resolved && EvalString(raw[name], resolved).Some?
    ensures SoundAt(raw, resolved[name := EvalString(raw[name], resolved).value], |resolved| + 1)
  {
    EvalIsSound(raw, resolved, |resolved|, raw[name]);
    forall n | n in resolved ensures Denotes(raw, raw[n], |resolved| + 1) == Some(resolved[n]) {
      DeeperAgrees(raw, raw[n], |resolved|, |resolved| + 1);
    }
  }

  /** Once nothing more resolves, nothing that has a derivation was missed. */
  lemma {:induction false} ClosedIsComplete(raw: Declared, resolved: Strings, depth: nat, e: Expr, n: nat)
    requires SoundAt(raw, resolved, depth) && Closed(raw, resolved) && Denotes(raw, e, n).Some?
    ensures EvalString(e, resolved) == Denotes(raw, e, n)
    decreases n, e
  {
    match e
    case Ident(name) =>
      ClosedIsComplete(raw, resolved, depth, raw[name], n - 1);
      assert name in resolved;
      DeeperAgrees(raw, raw[name], n - 1, if n - 1 < depth then depth else n - 1);
      DeeperAgrees(raw, raw[name], depth, if n - 1 < depth then depth else n - 1);
    case Paren(x) => ClosedIsComplete(raw, resolved, depth, x, n);
    case Add(x, y) => ClosedIsComplete(raw, resolved, depth, x, n); ClosedIsComplete(raw, resolved, depth, y, n);
    case _ =>
  }

  lemma SoundAndClosedIsExact(raw: Declared, resolved: Strings, depth: nat, name: string)
    requires SoundAt(raw, resolved, depth) && Closed(raw, resolved)
    ensures name in resolved <==> exists v :: Derives(raw, name, v)
    ensures name in resolved ==> Derives(raw, name, resolved[name])
  {
    if name in resolved {
      assert Denotes(raw, raw[name], depth) == Some(resolved[name]);
      assert Derives(raw, name, resolved[name]);
    }
    if v :| Derives(raw, name, v) {
      var n: nat :| Denotes(raw, raw[name], n) == Some(v);
      ClosedIsComplete(raw, resolved, depth, raw[name], n);
    }
  }

  lemma KeysWithin(resolved: Strings, raw: Declared)
    requires forall name :: name in resolved ==> name in raw
    ensures |resolved| <= |raw|
    ensures |resolved| == |raw| ==> forall name :: name in raw ==> name in resolved
  {
    assert resolved.Keys <= raw.Keys;
    assert raw.Keys == resolved.Keys + (raw.Keys - resolved.Keys);
    assert |resolved.Keys| == |resolved| && |raw.Keys| == |raw|;
  }

  // ---- collecting the declarations ------------------------------------------

  /** The first n names of one specification; names beyond the values have none. */
  function WithSpec(raw: Declared, vs: ValueSpec, n: nat): Declared
    requires n <= |vs.names|
  {
    if n == 0 then raw
    else
      var before := WithSpec(raw, vs, n - 1);
      if n - 1 < |vs.values| then before[vs.names[n - 1] := vs.values[n - 1]] else before
  }

  function Declarations(specs: seq<ValueSpec>): Declared
  {
    if |specs| == 0 then map[]
    else
      var vs := specs[|specs| - 1];
      WithSpec(Declarations(specs[..|specs| - 1]), vs, |vs.names|)
  }

  predicate DeclaresAt(vs: ValueSpec, i: int, name: string)
  {
    0 <= i < |vs.names| && i < |vs.values| && vs.names[i] == name
  }

  lemma {:induction false} WithSpecLeaves(raw: Declared, vs: ValueSpec, n: nat, name: string)
    requires n <= |vs.names| && forall i :: 0 <= i < n ==> !DeclaresAt(vs, i, name)
    ensures var r := WithSpec(raw, vs, n);
            (name in r <==> name in raw) && (name in r ==> r[name] == raw[name])
    decreases n
  {
    if n > 0 {
      WithSpecLeaves(raw, vs, n - 1, name);
      assert !DeclaresAt(vs, n - 1, name);
    }
  }

  lemma {:induction false} WithSpecTakes(raw: Declared, vs: ValueSpec, n: nat, name: string, i: nat)
    requires i < n <= |vs.names| && DeclaresAt(vs, i, name) && forall j :: i < j < n ==> !DeclaresAt(vs, j, name)
    ensures var r := WithSpec(raw, vs, n);
            name in r && r[name] == vs.values[i]
    decreases n
  {
    if i < n - 1 {
      WithSpecTakes(raw, vs, n - 1, name, i);
      assert !DeclaresAt(vs, n - 1, name);
    }
  }

  /** A name declared twice takes its last declaration. */
  lemma {:induction false} LastDeclarationWins(specs: seq<ValueSpec>, s: nat, i: nat, name: string)
    requires s < |specs| && DeclaresAt(specs[s], i, name)
    requires forall j :: j > i ==> !DeclaresAt(specs[s], j, name)
    requires forall t, j :: s < t < |specs| ==> !DeclaresAt(specs[t], j, name)
    ensures name in Declarations(specs) && Declarations(specs)[name] == specs[s].values[i]
    decreases |specs|
  {
    var vs := specs[|specs| - 1];
    if s < |specs| - 1 {
      LastDeclarationWins(specs[..|specs| - 1], s, i, name);
      WithSpecLeaves(Declarations(specs[..|specs| - 1]), vs, |vs.names|, name);
    } else {
      WithSpecTakes(Declarations(specs[..|specs| - 1]), vs, |vs.names|, name, i);
    }
  }

  /** Nothing else is collected: a name is there only if some specification gives it a value. */
  lemma {:induction false} OnlyDeclared(specs: seq<ValueSpec>, name: string)
    requires forall s, i :: 0 <= s < |specs| ==> !DeclaresAt(specs[s], i, name)
    ensures name !in Declarations(specs)
    decreases |specs|
  {
    if |specs| > 0 {
      OnlyDeclared(specs[..|specs| - 1], name);
      var vs := specs[|specs| - 1];
      WithSpecLeaves(Declarations(specs[..|specs| - 1]), vs, |vs.names|, name);
    }
  }

  method CollectRaw(specs: seq<ValueSpec>) returns (raw: Declared)
    ensures raw == Declarations(specs)
  {
    raw := map[];
    for s := 0 to |specs|
      invariant raw == Declarations(specs[..s])
    {
      var vs := specs[s];
      ghost var before := raw;
      for i := 0 to |vs.names|
        invariant raw == WithSpec(before, vs, i)
      {
        if i < |vs.values| {
          raw := raw[vs.names[i] := vs.values[i]];
        }
      }
      assert specs[..s + 1][..s] == specs[..s];
    }
    assert specs[..|specs|] == specs;
  }

  /** One pass: every unresolved name is tried once, in any order, against what has been
      resolved by then. */
  method OnePass(raw: Declared, before: Strings) returns (resolved: Strings, progressed: bool)
    requires SoundAt(raw, before, |before|)
    ensures SoundAt(raw, resolved, |resolved|)
    ensures progressed ==> |resolved| > |before|
    ensures !progressed ==> resolved == before && Closed(raw, before)
  {
    resolved, progressed := before, false;
    var unread := raw.Keys;
    while unread != {}
      invariant unread <= raw.Keys && SoundAt(raw, resolved, |resolved|)
      invariant if progressed then |resolved| > |before| else resolved == before
      invariant !progressed ==> forall n :: n in raw && n !in unread && n !in before ==> EvalString(raw[n], before).None?
      decreases unread
    {
      var name :| name in unread;
      unread := unread - {name};
      if name in resolved { continue; }
      var s := EvalString(raw[name], resolved);
      if s.Some? {
        SoundExtends(raw, resolved, name);
        assert |resolved[name := s.value]| == |resolved| + 1;
        resolved := resolved[name := s.value];
        progressed := true;
      }
    }
  }

  /** At most one pass per name, stopping at the first that resolves nothing: whatever
      order the map is iterated in, the result is exactly what the declarations denote. */
  method PackageStrings(raw: Declared) returns (resolved: Strings, passes: nat)
    ensures forall name :: name in resolved <==> exists v :: Derives(raw, name, v)
    ensures forall name :: name in resolved ==> Derives(raw, name, resolved[name])
    ensures passes <= |raw|
    ensures Closed(raw, resolved) && SoundAt(raw, resolved, |resolved|)
  {
    resolved, passes := map[], 0;
    var progressed := true;
    while passes < |raw| && progressed
      invariant passes <= |raw| && SoundAt(raw, resolved, |resolved|)
      invariant progressed ==> |resolved| >= passes
      invariant !progressed ==> Closed(raw, resolved)
      decreases |raw| - passes
    {
      resolved, progressed := OnePass(raw, resolved);
      passes := passes + 1;
    }
    KeysWithin(resolved, raw);
    forall name ensures name in resolved <==> exists v :: Derives(raw, name, v)
      ensures name in resolved ==> Derives(raw, name, resolved[name])
    {
      SoundAndClosedIsExact(raw, resolved, |resolved|, name);
    }
  }

  // ---- the result -----------------------------------------------------------

  /** Two runs, whatever their iteration orders, resolve the same names to the same strings. */
  lemma OrderDoesNotMatter(raw: Declared, a: Strings, b: Strings)
    requires SoundAt(raw, a, |a|) && Closed(raw, a) && SoundAt(raw, b, |b|) && Closed(raw, b)
    ensures a == b
  {
    forall name ensures name in a <==> name in b
      ensures name in a && name in b ==> a[name] == b[name]
    {
      SoundAndClosedIsExact(raw, a, |a|, name);
      SoundAndClosedIsExact(raw, b, |b|, name);
      if name in a && name in b { DerivesOnce(raw, name, a[name], b[name]); }
    }
  }

  /** Closed under evaluation: what the declarations evaluate to is there already. */
  ghost predicate PreFixpoint(raw: Declared, m: Strings)
  {
    forall name :: name in raw && EvalString(raw[name], m).Some? ==> name in m && m[name] == EvalString(raw[name], m).value
  }

  lemma {:induction false} PreFixpointHolds(raw: Declared, m: Strings, e: Expr, n: nat)
    requires PreFixpoint(raw, m) && Denotes(raw, e, n).Some?
    ensures EvalString(e, m) == Denotes(raw, e, n)
    decreases n, e
  {
    match e
    case Ident(name) => PreFixpointHolds(raw, m, raw[name], n - 1);
    case Paren(x) => PreFixpointHolds(raw, m, x, n);
    case Add(x, y) => PreFixpointHolds(raw, m, x, n); PreFixpointHolds(raw, m, y, n);
    case _ =>
  }

  /** The result is the least fixpoint: it is one, and every other contains it. */
  lemma LeastFixpoint(raw: Declared, resolved: Strings, m: Strings)
    requires SoundAt(raw, resolved, |resolved|) && Closed(raw, resolved)
    ensures PreFixpoint(raw, resolved)
    ensures PreFixpoint(raw, m) ==> forall name :: name in resolved ==> name in m && m[name] == resolved[name]
  {
    forall name | name in raw && EvalString(raw[name], resolved).Some?
      ensures name in resolved && resolved[name] == EvalString(raw[name], resolved).value
    {
      EvalIsSound(raw, resolved, |resolved|, raw[name]);
      DeeperAgrees(raw, raw[name], |resolved|, |resolved| + 1);
    }
    if PreFixpoint(raw, m) {
      forall name | name in resolved ensures name in m && m[name] == resolved[name] {
        PreFixpointHolds(raw, m, raw[name], |resolved|);
      }
    }
  }

  /** The fold cannot do without one of these names. */
  predicate Mentions(e: Expr, names: set<string>)
  {
    match e
    case Ident(name) => name in names
    case Paren(x) => Mentions(x, names)
    case Add(x, y) => Mentions(x, names) || Mentions(y, names)
    case _ => false
  }

  lemma {:induction false} CyclesDenoteNothing(raw: Declared, cycle: set<string>, e: Expr, n: nat)
    requires forall name :: name in cycle && name in raw ==> Mentions(raw[name], cycle)
    requires Mentions(e, cycle)
    ensures Denotes(raw, e, n).None?
    decreases n, e
  {
    match e
    case Ident(name) => if n > 0 && name in raw { CyclesDenoteNothing(raw, cycle, raw[name], n - 1); }
    case Paren(x) => CyclesDenoteNothing(raw, cycle, x, n);
    case Add(x, y) => if Mentions(x, cycle) { CyclesDenoteNothing(raw, cycle, x, n); } else { CyclesDenoteNothing(raw, cycle, y, n); }
    case _ =>
  }

  /** Declarations that lead into one another for ever are not resolved, and neither is
      anything built on them. */
  lemma CyclesStayUnresolved(raw: Declared, cycle: set<string>, resolved: Strings, name: string)
    requires SoundAt(raw, resolved, |resolved|)
    requires forall c :: c in cycle && c in raw ==> Mentions(raw[c], cycle)
    requires name in raw && Mentions(raw[name], cycle)
    ensures name !in resolved
  {
    CyclesDenoteNothing(raw, cycle, raw[name], |resolved|);
  }
}
