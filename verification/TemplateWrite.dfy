/** Role-template mutations behind their reconciliation, and the invariant that spans
    them and the membership reductions: no key outlives its owner's authority. */
module TemplateWrite {
  import opened Common
  import opened Scopes
  import opened IdentityDb
  import opened TemplateReconcile

  datatype WriteError =
    | NotFound | ReconcileFailed(error: ReconcileError) | ReconciliationIncomplete | MutationFailed

  /** What one call did: the sweep it ran, if any, and whether the template changed. */
  datatype Written = Written(reconciled: Option<ReconcileResult>, mutated: bool, error: Option<WriteError>)

  /** The template statement: new scopes, or None to delete. */
  type Change = Option<seq<Scope>>

  /** The scopes a member retains under the change. */
  function Proposed(change: Change): seq<Scope>
  {
    if change.Some? then change.value else []
  }

  predicate Writable(db: Db, id: string)
  {
    id in db.templates && !db.templates[id].isSystem
  }

  /** UPDATE, or DELETE with its ON DELETE SET NULL cascade. */
  function Mutate(db: Db, id: string, change: Change): Db
    requires id in db.templates
  {
    match change
    case Some(scopes) => db.(templates := db.templates[id := db.templates[id].(scopes := scopes)])
    case None =>
      db.(templates := db.templates - {id},
          members := map p | p in db.members :: if db.members[p] == Some(id) then None else db.members[p])
  }

  /** A write of a writable template: it mutates only after a sweep that finished, and
      a refusal after the sweep reports what was swept. */
  ghost predicate WriteEffect(before: Db, mid: Db, now: Db, id: string, change: Change,
                              pairs: ReadWritePairs, opts: Options, w: Written)
  {
    && (w.mutated <==> w.error.None?)
    && (w.mutated ==> w.reconciled.Some? && w.reconciled.value.done)
    && (w.reconciled.Some? ==>
          && Leg(before, mid, Job(id, Proposed(change), pairs), opts, w.reconciled.value)
          && id in mid.templates
          && now == (if w.mutated then Mutate(mid, id, change) else mid)
          && (w.error == Some(ReconciliationIncomplete) <==> !w.reconciled.value.done))
  }

  /** The answer to a write of a writable template: a failed sweep, an unfinished one, or
      a finished one and then exactly what the template statement said. */
  ghost predicate Answer(w: Written, mutateOk: bool)
  {
    && (w.reconciled.None? <==> w.error.Some? && w.error.value.ReconcileFailed?)
    && (w.reconciled.Some? && !w.reconciled.value.done ==> !w.mutated && w.error == Some(ReconciliationIncomplete))
    && (w.reconciled.Some? && w.reconciled.value.done ==>
          (w.mutated <==> mutateOk) && w.error == if mutateOk then None else Some(MutationFailed))
  }

  /** The sweep fails by itself only on a batch size it cannot use or where a batch fails,
      and stays unfinished only because its context or its batch limit ended it. */
  ghost predicate Stopped(w: Written, opts: Options, ctxDone: nat -> bool, fault: nat -> bool)
  {
    && (opts.batchSize <= 0 ==> w.error == Some(ReconcileFailed(BadBatchSize)))
    && (opts.batchSize > 0 && w.reconciled.None? ==>
          && w.error == Some(ReconcileFailed(DatabaseError))
          && exists k: nat :: Undisturbed(ctxDone, fault, k) && !ctxDone(k) && fault(k))
    && (w.reconciled.Some? ==>
          var r := w.reconciled.value;
          && Undisturbed(ctxDone, fault, r.batchesRun)
          && (!r.done ==> ctxDone(r.batchesRun) || (opts.maxBatches > 0 && r.batchesRun == opts.maxBatches)))
  }

  class TemplateWriter {
    const db: Tables?
    const pairs: ReadWritePairs
    const reconciler: Reconciler

    constructor (db: Tables?, pairs: ReadWritePairs)
      ensures this.db == db && this.pairs == pairs
      ensures reconciler.db == db && reconciler.pairs == pairs
    {
      this.db, this.pairs := db, pairs;
      reconciler := new Reconciler(db, pairs);
    }

    ghost function Footprint(): set<object>
    {
      if db == null then {} else {db}
    }

    ghost predicate Valid()
    {
      reconciler.db == db && reconciler.pairs == pairs
    }

    /** write: refuse what the statement would refuse anyway, sweep to the end, mutate. */
    method Write(id: string, change: Change, opts: Options, ctxDone: nat -> bool, fault: nat -> bool, mutateOk: bool)
      returns (w: Written, ghost reached: Option<Principal>, ghost mid: Db)
      requires Valid() && id != ""
      modifies Footprint()
      ensures db == null ==> w == Written(None, false, Some(ReconcileFailed(NoTemplateReconciler)))
      ensures db != null && !Writable(old(db.View()), id) ==>
                w == Written(None, false, Some(NotFound)) && db.View() == old(db.View())
      ensures db != null && Writable(old(db.View()), id) ==>
                WriteEffect(old(db.View()), mid, db.View(), id, change, pairs, opts, w) &&
                (w.reconciled.None? ==>
                   PartlySwept(old(db.View()), db.View(), Job(id, Proposed(change), pairs), opts.after, reached))
      ensures db != null && Writable(old(db.View()), id) ==> Answer(w, mutateOk) && Stopped(w, opts, ctxDone, fault)
    {
      mid := Db(map[], map[], map[]);
      if db == null { return Written(None, false, Some(ReconcileFailed(NoTemplateReconciler))), None, mid; }
      var job := Job(id, Proposed(change), pairs);
      reached := opts.after;
      if id !in db.templates || db.templates[id].isSystem {
        return Written(None, false, Some(NotFound)), opts.after, mid;
      }
      EmptySpan(db.View(), job, opts.after);
      var out;
      out, reached := reconciler.ReconcileRoleTemplate(job, opts, ctxDone, fault);
      if out.Failed? { return Written(None, false, Some(ReconcileFailed(out.error))), reached, mid; }
      mid := db.View();
      if !out.result.done {
        return Written(Some(out.result), false, Some(ReconciliationIncomplete)), reached, mid;
      }
      if !mutateOk { return Written(Some(out.result), false, Some(MutationFailed)), reached, mid; }
      var changed := Mutate(db.View(), id, change);
      db.templates, db.members := changed.templates, changed.members;
      return Written(Some(out.result), true, None), reached, mid;
    }

    method UpdateRoleTemplate(id: string, scopes: seq<Scope>, opts: Options,
                              ctxDone: nat -> bool, fault: nat -> bool, mutateOk: bool)
      returns (w: Written, ghost mid: Db)
      requires Valid() && id != ""
      modifies Footprint()
      ensures db != null && Writable(old(db.View()), id) ==>
                WriteEffect(old(db.View()), mid, db.View(), id, Some(scopes), pairs, opts, w) && Answer(w, mutateOk) &&
                Stopped(w, opts, ctxDone, fault)
      ensures db != null && !Writable(old(db.View()), id) ==>
                w == Written(None, false, Some(NotFound)) && db.View() == old(db.View())
      ensures db == null ==> w == Written(None, false, Some(ReconcileFailed(NoTemplateReconciler)))
    {
      ghost var reached;
      w, reached, mid := Write(id, Some(scopes), opts, ctxDone, fault, mutateOk);
    }

    method DeleteRoleTemplate(id: string, opts: Options, ctxDone: nat -> bool, fault: nat -> bool, mutateOk: bool)
      returns (w: Written, ghost mid: Db)
      requires Valid() && id != ""
      modifies Footprint()
      ensures db != null && Writable(old(db.View()), id) ==>
                WriteEffect(old(db.View()), mid, db.View(), id, None, pairs, opts, w) && Answer(w, mutateOk) &&
                Stopped(w, opts, ctxDone, fault)
      ensures db != null && !Writable(old(db.View()), id) ==>
                w == Written(None, false, Some(NotFound)) && db.View() == old(db.View())
      ensures db == null ==> w == Written(None, false, Some(ReconcileFailed(NoTemplateReconciler)))
    {
      ghost var reached;
      w, reached, mid := Write(id, None, opts, ctxDone, fault, mutateOk);
    }
  }

  // ---- the invariant -------------------------------------------------------

  /** Every key of a holder at or before the cursor is retained under the proposal:
      what resuming from that cursor takes for granted. */
  ghost predicate SweptUpTo(db: Db, job: Job, cursor: Option<Principal>)
  {
    forall id :: id in Judged(db, Holders(db, job.template), job.template) ==>
      Past(cursor, Principal(db.keys[id].org, db.keys[id].user.value)) || Retained(job, db.keys[id])
  }

  /** Sweeping only deletes keys, so it can break nothing. */
  lemma SweepKeepsKeysBacked(db: Db, ids: set<string>, pairs: ReadWritePairs)
    requires KeysBacked(db, pairs)
    ensures KeysBacked(DeleteKeys(db, ids), pairs)
  {
    var db' := DeleteKeys(db, ids);
    forall id | id in db'.keys ensures Backed(db', db'.keys[id], pairs) {
      assert Backed(db, db.keys[id], pairs);
    }
  }

  /** An incomplete call hands the guarantee on to the cursor it reports. */
  lemma LegExtendsSwept(db: Db, db': Db, job: Job, opts: Options, r: ReconcileResult)
    requires Leg(db, db', job, opts, r) && !r.done && SweptUpTo(db, job, opts.after)
    ensures SweptUpTo(db', job, r.cursor)
  {
    assert Holders(db', job.template) == Holders(db, job.template);
    forall id | id in Judged(db', Holders(db', job.template), job.template) &&
                !Past(r.cursor, Principal(db'.keys[id].org, db'.keys[id].user.value))
      ensures Retained(job, db'.keys[id])
    {
      var owner := Principal(db.keys[id].org, db.keys[id].user.value);
      assert id in Judged(db, Holders(db, job.template), job.template);
      if Past(opts.after, owner) {
        assert owner in Span(db, job.template, opts.after, r.cursor);
      }
    }
  }

  /** After the change every holder's authority is the proposal and nobody else's moved. */
  lemma MutateIsLocal(db: Db, id: string, change: Change, p: Principal)
    requires id in db.templates
    ensures CurrentScopes(Mutate(db, id, change), p) ==
            if Holds(db, p, id) then Proposed(change) else CurrentScopes(db, p)
  {
  }

  /** A completed write keeps the invariant exactly when its sweep started from a
      cursor behind which nothing was left to sweep. */
  lemma CompletedWriteKeepsKeysBacked(db: Db, mid: Db, id: string, change: Change, pairs: ReadWritePairs,
                                      opts: Options, r: ReconcileResult)
    requires KeysBacked(db, pairs) && id in db.templates
    requires Leg(db, mid, Job(id, Proposed(change), pairs), opts, r) && r.done
    ensures KeysBacked(Mutate(mid, id, change), pairs) <==> SweptUpTo(db, Job(id, Proposed(change), pairs), opts.after)
  {
    var job := Job(id, Proposed(change), pairs);
    var db' := Mutate(mid, id, change);
    forall k | k in db'.keys
      ensures Backed(db', db'.keys[k], pairs) <==>
              (k in Judged(db, Holders(db, id), id) ==> Retained(job, db.keys[k]))
    {
      var key := db.keys[k];
      if key.user.Some? {
        var owner := Principal(key.org, key.user.value);
        MutateIsLocal(mid, id, change, owner);
        assert Backed(db, key, pairs);
      }
    }
    if SweptUpTo(db, job, opts.after) {
      forall k | k in db'.keys ensures Backed(db', db'.keys[k], pairs) {
        if k in Judged(db, Holders(db, id), id) {
          var owner := Principal(db.keys[k].org, db.keys[k].user.value);
          if Past(opts.after, owner) {
            assert owner in HoldersAfter(db, id, opts.after);
          }
        }
      }
    } else {
      var k :| k in Judged(db, Holders(db, id), id) &&
        !Past(opts.after, Principal(db.keys[k].org, db.keys[k].user.value)) && !Retained(job, db.keys[k]);
      assert k in db'.keys;
      assert !Backed(db', db'.keys[k], pairs);
    }
  }

  /** A completed write from the beginning deletes exactly the keys the changed
      template no longer backs. */
  lemma CompletedWriteSweepsExactly(db: Db, mid: Db, id: string, change: Change, pairs: ReadWritePairs,
                                    opts: Options, r: ReconcileResult, k: string)
    requires KeysBacked(db, pairs) && id in db.templates && opts.after == None && k in db.keys
    requires Leg(db, mid, Job(id, Proposed(change), pairs), opts, r) && r.done
    ensures k in mid.keys <==> Backed(Mutate(mid, id, change), db.keys[k], pairs)
  {
    var key := db.keys[k];
    assert HoldersAfter(db, id, None) == Holders(db, id);
    if key.user.Some? {
      MutateIsLocal(mid, id, change, Principal(key.org, key.user.value));
      assert Backed(db, key, pairs);
    }
  }

  /** A pure widening of a template deletes nothing, wherever the sweep stops. */
  lemma WideningSweepsNothing(db: Db, db': Db, id: string, scopes: seq<Scope>, pairs: ReadWritePairs,
                              opts: Options, r: ReconcileResult)
    requires KeysBacked(db, pairs) && Coherent(pairs) && id in db.templates
    requires AuthorityRetained(db.templates[id].scopes, scopes, pairs)
    requires Leg(db, db', Job(id, scopes, pairs), opts, r)
    ensures db' == db && r.keysSwept == 0
  {
    var job := Job(id, scopes, pairs);
    var covered := Covered(db, job, opts, r);
    forall k | k in Judged(db, covered, id) ensures Retained(job, db.keys[k]) {
      assert Backed(db, db.keys[k], pairs);
      RetainedTransitive(db.keys[k].scopes, db.templates[id].scopes, scopes, pairs);
    }
    assert Unretained(db, covered, job) == {};
    assert db.keys - {} == db.keys;
  }

  /** A write handed a cursor of its own strands a key: the sweep is Done without
      having looked at it, and the mutation goes through. */
  lemma StaleCursorStrandsAKey()
    ensures exists db: Db, mid: Db, opts: Options, r: ReconcileResult, scopes: seq<Scope> ::
              && KeysBacked(db, map[]) && Writable(db, "t")
              && Leg(db, mid, Job("t", scopes, map[]), opts, r) && r.done
              && !KeysBacked(Mutate(mid, "t", Some(scopes)), map[])
  {
    var p := Principal("a", "u");
    var db := Db(map["t" := Template("t", ["users:write"], false)], map[p := Some("t")],
                 map["k" := ApiKey("a", Some("u"), ["users:write"])]);
    assert Grants("users:write", "users:write", map[]);
    assert HasScope(["users:write"], "users:write", map[]) by {
      assert ["users:write"][0] == "users:write";
    }
    assert KeysBacked(db, map[]);
    var opts := Options(10, 0, Some(p));
    var job := Job("t", [], map[]);
    var r := ReconcileResult(1, 0, 0, 0, None, true);
    PrincipalOrder();
    assert HoldersAfter(db, "t", Some(p)) == {};
    EmptySpan(db, job, Some(p));
    assert Leg(db, db, job, opts, r);
    assert !SweptUpTo(db, job, Some(p)) by {
      assert "k" in Judged(db, Holders(db, "t"), "t");
      assert !HasScope([], "users:write", map[]);
    }
    CompletedWriteKeepsKeysBacked(db, db, "t", Some([]), map[], opts, r);
  }
}
