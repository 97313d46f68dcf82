/** Chains of calls to ReconcileRoleTemplate, each resumed from the cursor the one
    before it reported. */
module ReconcileChain {
  import opened Common
  import opened IdentityDb
  import opened Scopes
  import opened TemplateReconcile

  datatype Call = Call(opts: Options, result: ReconcileResult)

  /** On tables nobody else changes, each call's effect is a Leg, every call but the
      last stops early, and the next resumes where it stopped. */
  ghost predicate Resumed(dbs: seq<Db>, calls: seq<Call>, job: Job, after: Option<Principal>)
  {
    && |dbs| == |calls| + 1
    && (|calls| > 0 ==>
          && calls[0].opts.after == after
          && Leg(dbs[0], dbs[1], job, calls[0].opts, calls[0].result)
          && (|calls| > 1 ==> !calls[0].result.done)
          && Resumed(dbs[1..], calls[1..], job, calls[0].result.cursor))
  }

  ghost predicate ReachesDone(calls: seq<Call>)
  {
    |calls| > 0 && calls[|calls| - 1].result.done
  }

  function TotalSwept(calls: seq<Call>): nat
  {
    if |calls| == 0 then 0 else calls[0].result.keysSwept + TotalSwept(calls[1..])
  }

  function TotalChecked(calls: seq<Call>): nat
  {
    if |calls| == 0 then 0 else calls[0].result.principalsChecked + TotalChecked(calls[1..])
  }

  /** A cursor splits the membership into what was examined and what was not. */
  lemma CursorSplits(db: Db, job: Job, after: Option<Principal>, cursor: Option<Principal>)
    requires CursorAdvanced(after, cursor)
    ensures HoldersAfter(db, job.template, after) ==
            Span(db, job.template, after, cursor) + HoldersAfter(db, job.template, cursor)
    ensures Span(db, job.template, after, cursor) !! HoldersAfter(db, job.template, cursor)
  {
    forall p | p in HoldersAfter(db, job.template, cursor) ensures p in HoldersAfter(db, job.template, after) {
      PastAdvances(after, cursor, p);
    }
  }

  /** The effect of sweeping some principals, with its totals. */
  ghost predicate Sweep(db: Db, db': Db, job: Job, ps: set<Principal>, swept: int, checked: int)
  {
    db' == DeleteKeys(db, Unretained(db, ps, job)) && swept == |Unretained(db, ps, job)| && checked == |ps|
  }

  lemma SweepsJoin(a: Db, b: Db, c: Db, job: Job, first: set<Principal>, second: set<Principal>, m: int, n: int, i: int, j: int)
    requires first !! second && Sweep(a, b, job, first, m, i) && Sweep(b, c, job, second, n, j)
    ensures Sweep(a, c, job, first + second, m + n, i + j)
  {
    SweepsCompose(a, first, second, job);
    SweepsCount(a, first, second, job);
    DisjointSizes(first, second);
  }

  lemma SameHoldersAfter(a: Db, b: Db, template: string, cursor: Option<Principal>)
    requires a.members == b.members
    ensures HoldersAfter(a, template, cursor) == HoldersAfter(b, template, cursor)
  {
    assert Holders(a, template) == Holders(b, template);
  }

  lemma {:induction false} ChainFrom(dbs: seq<Db>, calls: seq<Call>, job: Job, after: Option<Principal>)
    requires Resumed(dbs, calls, job, after) && ReachesDone(calls)
    ensures Sweep(dbs[0], dbs[|calls|], job, HoldersAfter(dbs[0], job.template, after), TotalSwept(calls), TotalChecked(calls))
    decreases |calls|
  {
    var r := calls[0].result;
    if |calls| == 1 {
      assert TotalSwept(calls[1..]) == 0 && TotalChecked(calls[1..]) == 0;
    } else {
      assert calls[1..][|calls[1..]| - 1] == calls[|calls| - 1];
      ChainFrom(dbs[1..], calls[1..], job, r.cursor);
      SameHoldersAfter(dbs[1], dbs[0], job.template, r.cursor);
      CursorSplits(dbs[0], job, after, r.cursor);
      SweepsJoin(dbs[0], dbs[1], dbs[|calls|], job, Span(dbs[0], job.template, after, r.cursor),
                 HoldersAfter(dbs[0], job.template, r.cursor),
                 r.keysSwept, TotalSwept(calls[1..]), r.principalsChecked, TotalChecked(calls[1..]));
    }
  }

  /** Batched refines unbatched: whatever the batch sizes, the batch limits and the
      cancellations, a chain from the beginning that reaches Done has deleted exactly
      the keys one unbatched filter would, and its totals are the preview's. */
  lemma {:induction false} ChainRefinesUnbatched(dbs: seq<Db>, calls: seq<Call>, job: Job)
    requires Resumed(dbs, calls, job, None) && ReachesDone(calls)
    ensures dbs[|calls|] == DeleteKeys(dbs[0], Unretained(dbs[0], Holders(dbs[0], job.template), job))
    ensures forall id :: id in dbs[0].keys ==> var key := dbs[0].keys[id];
              id !in dbs[|calls|].keys <==>
                && key.user.Some? && Principal(key.org, key.user.value) in dbs[0].members
                && dbs[0].members[Principal(key.org, key.user.value)] == Some(job.template)
                && !AuthorityRetained(key.scopes, job.proposed, job.pairs)
    ensures TotalSwept(calls) == Expected(dbs[0], job).keys
    ensures TotalChecked(calls) == Expected(dbs[0], job).scanned
  {
    ChainFrom(dbs, calls, job, None);
    assert HoldersAfter(dbs[0], job.template, None) == Holders(dbs[0], job.template);
  }

  /** A call that ran a batch and is not done has left fewer principals for the next. */
  lemma {:induction false} ProductiveCallsBounded(dbs: seq<Db>, calls: seq<Call>, job: Job, after: Option<Principal>)
    requires Resumed(dbs, calls, job, after)
    requires forall i :: 0 <= i < |calls| ==> !calls[i].result.done && calls[i].result.batchesRun >= 1
    ensures |calls| <= |HoldersAfter(dbs[0], job.template, after)|
    decreases |calls|
  {
    if |calls| > 0 {
      var r := calls[0].result;
      ProductiveCallsBounded(dbs[1..], calls[1..], job, r.cursor);
      assert dbs[1].members == dbs[0].members;
      assert Holders(dbs[1], job.template) == Holders(dbs[0], job.template);
      assert HoldersAfter(dbs[1], job.template, r.cursor) == HoldersAfter(dbs[0], job.template, r.cursor);
      CursorSplits(dbs[0], job, after, r.cursor);
      assert r.principalsChecked >= 1 by {
        assert r.batchesRun * calls[0].opts.batchSize >= 1;
      }
      var first := Span(dbs[0], job.template, after, r.cursor);
      var second := HoldersAfter(dbs[0], job.template, r.cursor);
      assert |first + second| == |first| + |second|;
    }
  }

  /** The chain terminates: more resumed calls than there are holders, each allowed at
      least one batch, cannot all stop early. */
  lemma {:induction false} ChainTerminates(dbs: seq<Db>, calls: seq<Call>, job: Job)
    requires Resumed(dbs, calls, job, None)
    requires forall i :: 0 <= i < |calls| ==> calls[i].result.batchesRun >= 1
    requires |calls| > |Holders(dbs[0], job.template)|
    ensures ReachesDone(calls)
  {
    forall i | 0 <= i < |calls| - 1 ensures !calls[i].result.done { EarlierCallStops(dbs, calls, job, None, i); }
    assert HoldersAfter(dbs[0], job.template, None) == Holders(dbs[0], job.template);
    if !calls[|calls| - 1].result.done {
      ProductiveCallsBounded(dbs, calls, job, None);
    }
  }

  lemma {:induction false} EarlierCallStops(dbs: seq<Db>, calls: seq<Call>, job: Job, after: Option<Principal>, i: nat)
    requires Resumed(dbs, calls, job, after) && i < |calls| - 1
    ensures !calls[i].result.done
    decreases i
  {
    if i > 0 {
      EarlierCallStops(dbs[1..], calls[1..], job, calls[0].result.cursor, i - 1);
    }
  }
}
