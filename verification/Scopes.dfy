/** The scope algebra: when one scope list grants no more than another. */
module Scopes {

  type Scope = string

  const ADMIN: Scope := "admin"

  /** A read scope mapped to the write scope that implies it. */
  type ReadWritePairs = map<Scope, Scope>

  /** One held scope satisfies one required scope. */
  predicate Grants(held: Scope, required: Scope, pairs: ReadWritePairs)
  {
    || held == required
    || held == ADMIN
    || (required in pairs && held == pairs[required])
  }

  predicate HasScope(held: seq<Scope>, required: Scope, pairs: ReadWritePairs)
  {
    required != "" && exists i :: 0 <= i < |held| && Grants(held[i], required, pairs)
  }

  /** Every scope a credential was frozen with is still granted. */
  predicate AuthorityRetained(have: seq<Scope>, kept: seq<Scope>, pairs: ReadWritePairs)
  {
    forall i :: 0 <= i < |have| ==> HasScope(kept, have[i], pairs)
  }

  /** The assignment ceiling: may a caller hand out a role with these scopes? */
  predicate RoleScopesPermittedBy(caller: seq<Scope>, role: seq<Scope>, pairs: ReadWritePairs)
  {
    || |role| == 0
    || HasScope(caller, ADMIN, pairs)
    || forall i :: 0 <= i < |role| ==> role[i] != ADMIN && HasScope(caller, role[i], pairs)
  }

  /** What a list of scopes lets its holder do. */
  ghost function Satisfied(held: seq<Scope>, pairs: ReadWritePairs): iset<Scope>
  {
    iset r | HasScope(held, r, pairs)
  }

  predicate NoEmptyScope(scopes: seq<Scope>)
  {
    "" !in scopes
  }

  /** A write scope that is itself read-implied by something, and the wildcard
      treated as a read scope, are the two ways a pair table breaks the algebra.
      A table is coherent when neither adds authority. */
  predicate Coherent(pairs: ReadWritePairs)
  {
    && (ADMIN in pairs ==> pairs[ADMIN] == ADMIN)
    && (forall r :: r in pairs && r != "" && pairs[r] != "" && pairs[r] in pairs ==>
          pairs[pairs[r]] in {r, pairs[r], ADMIN})
  }

  /** The shape both consumers use: no write scope is a read scope, admin is not one. */
  predicate Flat(pairs: ReadWritePairs)
  {
    && ADMIN !in pairs
    && forall r :: r in pairs ==> pairs[r] !in pairs
  }

  lemma FlatIsCoherent(pairs: ReadWritePairs)
    requires Flat(pairs)
    ensures Coherent(pairs)
  {
    assert forall r :: r in pairs ==> pairs[r] !in pairs;
  }

  /** Whatever a retained list satisfies, the retaining list satisfies too. */
  lemma RetainedCovers(have: seq<Scope>, kept: seq<Scope>, r: Scope, pairs: ReadWritePairs)
    requires Coherent(pairs) && AuthorityRetained(have, kept, pairs) && HasScope(have, r, pairs)
    ensures HasScope(kept, r, pairs)
  {
    var i :| 0 <= i < |have| && Grants(have[i], r, pairs);
    assert HasScope(kept, have[i], pairs);
    var j :| 0 <= j < |kept| && Grants(kept[j], have[i], pairs);
    assert Grants(kept[j], r, pairs);
  }

  /** A scope list satisfies each of its own non-empty scopes. */
  lemma SatisfiesOwn(have: seq<Scope>, i: nat, pairs: ReadWritePairs)
    requires i < |have| && have[i] != ""
    ensures HasScope(have, have[i], pairs)
  {
    assert Grants(have[i], have[i], pairs);
  }

  /** AuthorityRetained is inclusion of authority. */
  lemma RetainedIffIncluded(have: seq<Scope>, kept: seq<Scope>, pairs: ReadWritePairs)
    requires Coherent(pairs) && NoEmptyScope(have)
    ensures AuthorityRetained(have, kept, pairs) <==> Satisfied(have, pairs) <= Satisfied(kept, pairs)
  {
    if AuthorityRetained(have, kept, pairs) {
      forall r | r in Satisfied(have, pairs) ensures r in Satisfied(kept, pairs) {
        RetainedCovers(have, kept, r, pairs);
      }
    }
    if Satisfied(have, pairs) <= Satisfied(kept, pairs) {
      forall i | 0 <= i < |have| ensures HasScope(kept, have[i], pairs) {
        SatisfiesOwn(have, i, pairs);
        assert have[i] in Satisfied(have, pairs);
      }
    }
  }

  ghost predicate RetainedMeansIncluded(pairs: ReadWritePairs)
  {
    forall have, kept :: NoEmptyScope(have) ==>
      (AuthorityRetained(have, kept, pairs) <==> Satisfied(have, pairs) <= Satisfied(kept, pairs))
  }

  /** Coherence is exactly the condition on the pair table under which the
      predicate that destroys credentials means inclusion of authority. */
  lemma CoherentIffRetainedMeansIncluded(pairs: ReadWritePairs)
    ensures Coherent(pairs) <==> RetainedMeansIncluded(pairs)
  {
    if Coherent(pairs) {
      forall have, kept | NoEmptyScope(have)
        ensures AuthorityRetained(have, kept, pairs) <==> Satisfied(have, pairs) <= Satisfied(kept, pairs)
      {
        RetainedIffIncluded(have, kept, pairs);
      }
    } else {
      var have, kept := IncoherentWitness(pairs);
      assert NoEmptyScope(have);
    }
  }

  /** An incoherent table retains a credential that can do more than its owner. */
  lemma IncoherentWitness(pairs: ReadWritePairs) returns (have: seq<Scope>, kept: seq<Scope>)
    requires !Coherent(pairs)
    ensures NoEmptyScope(have) && AuthorityRetained(have, kept, pairs)
    ensures !(Satisfied(have, pairs) <= Satisfied(kept, pairs))
  {
    if ADMIN in pairs && pairs[ADMIN] != ADMIN {
      have, kept := [ADMIN], [pairs[ADMIN]];
      assert Grants(kept[0], ADMIN, pairs);
      var r := FreshScope(pairs.Keys + {pairs[ADMIN]});
      assert Grants(have[0], r, pairs);
      assert r in Satisfied(have, pairs) && r !in Satisfied(kept, pairs);
    } else {
      var r :| r in pairs && r != "" && pairs[r] != "" && pairs[r] in pairs
               && pairs[pairs[r]] !in {r, pairs[r], ADMIN};
      have, kept := [pairs[r]], [pairs[pairs[r]]];
      assert Grants(kept[0], have[0], pairs);
      assert Grants(have[0], r, pairs);
      assert r in Satisfied(have, pairs) && r !in Satisfied(kept, pairs);
    }
  }

  /** A non-empty scope outside any finite set. */
  lemma FreshScope(used: set<Scope>) returns (unused: Scope)
    ensures unused != "" && unused !in used
  {
    var n := LongerThanAll(used);
    unused := seq(n + 1, _ => 'x');
  }

  lemma LongerThanAll(used: set<Scope>) returns (n: nat)
    ensures forall s :: s in used ==> |s| <= n
    decreases used
  {
    if used == {} {
      n := 0;
    } else {
      var s :| s in used;
      var m := LongerThanAll(used - {s});
      n := if |s| > m then |s| else m;
      forall t | t in used ensures |t| <= n {
        assert t == s || t in used - {s};
      }
    }
  }

  /** Retention is reflexive exactly on lists without an empty scope. */
  lemma RetainedReflexive(have: seq<Scope>, pairs: ReadWritePairs)
    ensures AuthorityRetained(have, have, pairs) <==> NoEmptyScope(have)
  {
    if NoEmptyScope(have) {
      forall i | 0 <= i < |have| ensures HasScope(have, have[i], pairs) {
        SatisfiesOwn(have, i, pairs);
      }
    } else {
      var i :| 0 <= i < |have| && have[i] == "";
      assert !HasScope(have, have[i], pairs);
    }
  }

  lemma RetainedTransitive(a: seq<Scope>, b: seq<Scope>, c: seq<Scope>, pairs: ReadWritePairs)
    requires Coherent(pairs) && AuthorityRetained(a, b, pairs) && AuthorityRetained(b, c, pairs)
    ensures AuthorityRetained(a, c, pairs)
  {
    forall i | 0 <= i < |a| ensures HasScope(c, a[i], pairs) {
      RetainedCovers(b, c, a[i], pairs);
    }
  }

  /** Keeping more never retains less, for any pair table. */
  lemma RetainedMonotone(have: seq<Scope>, kept: seq<Scope>, more: seq<Scope>, pairs: ReadWritePairs)
    requires AuthorityRetained(have, kept, pairs)
    requires forall s :: s in kept ==> s in more
    ensures AuthorityRetained(have, more, pairs)
  {
    forall i | 0 <= i < |have| ensures HasScope(more, have[i], pairs) {
      assert HasScope(kept, have[i], pairs);
      var j :| 0 <= j < |kept| && Grants(kept[j], have[i], pairs);
      assert kept[j] in more;
      var k :| 0 <= k < |more| && more[k] == kept[j];
      assert Grants(more[k], have[i], pairs);
    }
  }

  /** Leaving the pair table out over-revokes and never under-revokes. */
  lemma NoPairsOnlyOverRevokes(have: seq<Scope>, kept: seq<Scope>, pairs: ReadWritePairs)
    requires AuthorityRetained(have, kept, map[])
    ensures AuthorityRetained(have, kept, pairs)
  {
    forall i | 0 <= i < |have| ensures HasScope(kept, have[i], pairs) {
      assert HasScope(kept, have[i], map[]);
      var j :| 0 <= j < |kept| && Grants(kept[j], have[i], map[]);
      assert Grants(kept[j], have[i], pairs);
    }
  }

  /** The assignment ceiling and the retention predicate are the same judgement,
      except that a caller with the wildcard may hand out a list with an empty
      scope in it, which nothing retains. */
  lemma CeilingIsRetention(kept: seq<Scope>, have: seq<Scope>, pairs: ReadWritePairs)
    requires Coherent(pairs)
    ensures RoleScopesPermittedBy(kept, have, pairs) <==>
            (AuthorityRetained(have, kept, pairs) || (ADMIN in kept && !NoEmptyScope(have)))
  {
    if HasScope(kept, ADMIN, pairs) {
      var j :| 0 <= j < |kept| && Grants(kept[j], ADMIN, pairs);
      assert kept[j] == ADMIN;
      forall s: Scope | s != "" ensures HasScope(kept, s, pairs) {
        assert Grants(kept[j], s, pairs);
      }
      if NoEmptyScope(have) {
        assert AuthorityRetained(have, kept, pairs);
      }
    } else {
      assert ADMIN !in kept by {
        if j :| 0 <= j < |kept| && kept[j] == ADMIN {
          assert Grants(kept[j], ADMIN, pairs);
          assert false;
        }
      }
      if AuthorityRetained(have, kept, pairs) {
        forall i | 0 <= i < |have| ensures have[i] != ADMIN {
          assert HasScope(kept, have[i], pairs);
        }
      }
    }
  }
}
