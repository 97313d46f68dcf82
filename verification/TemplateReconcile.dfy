/** The bounded, resumable sweep for a role-template change: keyset pages, one
    transaction each, and the preview that reports what the sweep will do. */
module TemplateReconcile {
  import opened Common
  import opened Ordering
  import opened Scopes
  import opened IdentityDb

  /** A template, the scopes it is about to carry, and the application's scope grammar. */
  datatype Job = Job(template: string, proposed: seq<Scope>, pairs: ReadWritePairs)

  datatype Options = Options(batchSize: int, maxBatches: int, after: Option<Principal>)

  datatype ReconcileResult = ReconcileResult(
    batchesRun: nat, principalsChecked: nat, keysSwept: nat, keysSpared: nat,
    cursor: Option<Principal>, done: bool)

  datatype ReconcileError = NoTemplateReconciler | EmptyTemplateId | BadBatchSize | DatabaseError

  datatype Reconciled = Ran(result: ReconcileResult) | Failed(error: ReconcileError)

  datatype Impact = Impact(scanned: nat, principals: nat, keys: nat)

  // ---- who and what a sweep is about --------------------------------------

  predicate Holds(db: Db, p: Principal, template: string)
  {
    p in db.members && db.members[p] == Some(template)
  }

  function Holders(db: Db, template: string): set<Principal>
  {
    set p | p in db.members && Holds(db, p, template)
  }

  /** Strictly after the cursor. */
  predicate Past(after: Option<Principal>, p: Principal)
  {
    after.None? || PrincipalBefore(after.value, p)
  }

  function HoldersAfter(db: Db, template: string, after: Option<Principal>): set<Principal>
  {
    set p | p in Holders(db, template) && Past(after, p)
  }

  /** The holders after one cursor and up to another. */
  function Span(db: Db, template: string, after: Option<Principal>, upto: Option<Principal>): set<Principal>
  {
    set p | p in HoldersAfter(db, template, after) && !Past(upto, p)
  }

  /** The keys of some principals, restricted to those who hold the template now. */
  function Judged(db: Db, ps: set<Principal>, template: string): set<string>
  {
    set id | id in db.keys && db.keys[id].user.Some?
      && Principal(db.keys[id].org, db.keys[id].user.value) in ps
      && Holds(db, Principal(db.keys[id].org, db.keys[id].user.value), template)
  }

  predicate Retained(job: Job, key: ApiKey)
  {
    AuthorityRetained(key.scopes, job.proposed, job.pairs)
  }

  /** Of those keys, the ones the proposed scopes no longer cover. */
  function Unretained(db: Db, ps: set<Principal>, job: Job): set<string>
  {
    set id | id in Judged(db, ps, job.template) && !Retained(job, db.keys[id])
  }

  function DeleteKeys(db: Db, ids: set<string>): Db
  {
    db.(keys := db.keys - ids)
  }

  // ---- what one call did ---------------------------------------------------

  ghost function Covered(db: Db, job: Job, opts: Options, r: ReconcileResult): set<Principal>
  {
    if r.done then HoldersAfter(db, job.template, opts.after)
    else Span(db, job.template, opts.after, r.cursor)
  }

  ghost predicate CursorAdvanced(after: Option<Principal>, cursor: Option<Principal>)
  {
    cursor == after || (cursor.Some? && Past(after, cursor.value))
  }

  /** The tables and the counters are those of examining some principals, no more and
      no fewer, and deleting their unretained keys. */
  ghost predicate Covers(db: Db, db': Db, job: Job, covered: set<Principal>, r: ReconcileResult)
  {
    && db' == DeleteKeys(db, Unretained(db, covered, job))
    && r.principalsChecked == |covered|
    && r.keysSwept == |Unretained(db, covered, job)|
    && r.keysSpared == |Judged(db, covered, job.template) - Unretained(db, covered, job)|
  }

  /** One call, on tables nobody else changes: it examined the holders from its
      starting cursor to the cursor it reports (to the end when Done), deleted exactly
      their unretained keys, and counted them. */
  ghost predicate Leg(db: Db, db': Db, job: Job, opts: Options, r: ReconcileResult)
  {
    && opts.batchSize >= 1
    && Covers(db, db', job, Covered(db, job, opts, r), r)
    && (r.done ==> r.cursor.None?)
    && (!r.done ==> CursorAdvanced(opts.after, r.cursor))
    && (!r.done ==> r.principalsChecked == r.batchesRun * opts.batchSize)
    && (r.done ==> (r.batchesRun - 1) * opts.batchSize <= r.principalsChecked < r.batchesRun * opts.batchSize)
    && (opts.maxBatches > 0 ==> r.batchesRun <= opts.maxBatches)
  }

  /** In the order of the primary key (organization_id, user_id), the principal comes
      after the cursor, if there is one. */
  predicate KeyAfter(cursor: Option<Principal>, p: Principal)
  {
    || cursor.None?
    || TextBefore(cursor.value.org, p.org)
    || (cursor.value.org == p.org && TextBefore(cursor.value.user, p.user))
  }

  /** One call on the rows: it deletes a key exactly when its owner holds the template, lies
      between the cursor the call was given and the one it reports, and the key asks for
      more than the proposed scopes grant. */
  lemma LegRows(db: Db, db': Db, job: Job, opts: Options, r: ReconcileResult, id: string)
    requires Leg(db, db', job, opts, r)
    ensures db'.templates == db.templates && db'.members == db.members
    ensures id in db'.keys ==> id in db.keys && db'.keys[id] == db.keys[id]
    ensures id in db.keys ==>
              (id !in db'.keys <==> StrandedBetween(db, job, opts.after, if r.done then None else r.cursor, r.done, db.keys[id]))
  {
  }

  /** The key's owner holds the template, lies after the one cursor and not after the other,
      and the key asks for more than the proposed scopes grant. */
  predicate StrandedBetween(db: Db, job: Job, after: Option<Principal>, upto: Option<Principal>, toTheEnd: bool, key: ApiKey)
  {
    && key.user.Some?
    && Principal(key.org, key.user.value) in db.members
    && db.members[Principal(key.org, key.user.value)] == Some(job.template)
    && KeyAfter(after, Principal(key.org, key.user.value))
    && (toTheEnd || !KeyAfter(upto, Principal(key.org, key.user.value)))
    && !AuthorityRetained(key.scopes, job.proposed, job.pairs)
  }

  /** What the preview counts, on the rows: the template's holders, the stranded keys, and
      the holders of at least one of those. */
  lemma ExpectedRows(db: Db, job: Job)
    ensures var holders := set p | p in db.members && db.members[p] == Some(job.template);
            var stranded := set id | id in db.keys && StrandedBetween(db, job, None, None, true, db.keys[id]);
            var owners := set p | p in holders && OwnsOne(db, stranded, p);
            Expected(db, job) == Impact(|holders|, |owners|, |stranded|)
  {
    var holders := set p | p in db.members && db.members[p] == Some(job.template);
    var stranded := set id | id in db.keys && StrandedBetween(db, job, None, None, true, db.keys[id]);
    var owners := set p | p in holders && OwnsOne(db, stranded, p);
    assert Holders(db, job.template) == holders;
    assert Unretained(db, holders, job) == stranded;
    forall p | p in owners ensures p in Owners(db, stranded) {
      var id :| id in stranded && id in db.keys && db.keys[id].user == Some(p.user) && db.keys[id].org == p.org;
      assert p == Principal(db.keys[id].org, db.keys[id].user.value);
    }
    assert Owners(db, stranded) == owners;
  }

  predicate OwnsOne(db: Db, ids: set<string>, p: Principal)
  {
    exists id :: id in ids && id in db.keys && db.keys[id].user == Some(p.user) && db.keys[id].org == p.org
  }

  // ---- pages ---------------------------------------------------------------

  /** planBatch's page: the first holders after the cursor, in key order. */
  ghost function PageOf(db: Db, template: string, after: Option<Principal>, size: nat): seq<Principal>
  {
    PrincipalOrder();
    FirstN(HoldersAfter(db, template, after), size, PrincipalBefore)
  }

  function PageSet(page: seq<Principal>): set<Principal>
  {
    set p | p in page
  }

  lemma PageFacts(db: Db, template: string, cursor: Option<Principal>, size: nat)
    ensures var page := PageOf(db, template, cursor, size);
            var rest := HoldersAfter(db, template, cursor);
            && |PageSet(page)| == |page| <= size
            && PageSet(page) <= rest
            && (|page| < size ==> PageSet(page) == rest)
            && (|page| > 0 ==> forall p :: p in rest ==> (p in PageSet(page) <==> !Past(Some(page[|page| - 1]), p)))
  {
    PrincipalOrder();
    var page := PageOf(db, template, cursor, size);
    var rest := HoldersAfter(db, template, cursor);
    FirstNIsPage(rest, size, PrincipalBefore);
    IncreasingSize(page, PrincipalBefore);
    if |page| < size {
      forall p | p in rest ensures p in PageSet(page) {
      }
    }
    if |page| > 0 {
      var last := page[|page| - 1];
      forall p | p in rest ensures p in PageSet(page) <==> !PrincipalBefore(last, p) {
        if p in page {
          var k :| 0 <= k < |page| && page[k] == p;
          assert p == last || PrincipalBefore(p, last);
        }
      }
    }
  }

  lemma PastAdvances(after: Option<Principal>, cursor: Option<Principal>, p: Principal)
    requires CursorAdvanced(after, cursor) && Past(cursor, p)
    ensures Past(after, p)
  {
    PrincipalOrder();
  }

  /** A page is disjoint from the span before it, and a short page ends the membership. */
  lemma PageFollowsSpan(db: Db, template: string, after: Option<Principal>, cursor: Option<Principal>, size: nat)
    requires CursorAdvanced(after, cursor)
    ensures var page := PageOf(db, template, cursor, size);
            && Span(db, template, after, cursor) !! PageSet(page)
            && (|page| < size ==>
                  HoldersAfter(db, template, after) == Span(db, template, after, cursor) + PageSet(page))
  {
    PageFacts(db, template, cursor, size);
    forall p | p in HoldersAfter(db, template, cursor) ensures p in HoldersAfter(db, template, after) {
      PastAdvances(after, cursor, p);
    }
  }

  lemma LastAdvances(db: Db, template: string, after: Option<Principal>, cursor: Option<Principal>, size: nat)
    requires CursorAdvanced(after, cursor) && |PageOf(db, template, cursor, size)| > 0
    ensures var page := PageOf(db, template, cursor, size);
            var last := page[|page| - 1];
            && last in PageSet(page) && Past(cursor, last) && Past(after, last)
  {
    var page := PageOf(db, template, cursor, size);
    var last := page[|page| - 1];
    PageFacts(db, template, cursor, size);
    assert last in PageSet(page);
    PastAdvances(after, cursor, last);
  }

  /** A page carries the span on to its last principal. */
  lemma PageExtendsSpan(db: Db, template: string, after: Option<Principal>, cursor: Option<Principal>, size: nat)
    requires CursorAdvanced(after, cursor) && |PageOf(db, template, cursor, size)| > 0
    ensures var page := PageOf(db, template, cursor, size);
            var last := Some(page[|page| - 1]);
            && CursorAdvanced(cursor, last)
            && CursorAdvanced(after, last)
            && Span(db, template, after, last) == Span(db, template, after, cursor) + PageSet(page)
  {
    var page := PageOf(db, template, cursor, size);
    var last := page[|page| - 1];
    LastAdvances(db, template, after, cursor, size);
    PageFacts(db, template, cursor, size);
    SpanThrough(db, template, after, cursor, last, PageSet(page));
  }

  lemma SpanThrough(db: Db, template: string, after: Option<Principal>, cursor: Option<Principal>, last: Principal, page: set<Principal>)
    requires CursorAdvanced(after, cursor) && CursorAdvanced(cursor, Some(last))
    requires page <= HoldersAfter(db, template, cursor)
    requires forall p :: p in HoldersAfter(db, template, cursor) ==> (p in page <==> !Past(Some(last), p))
    ensures Span(db, template, after, Some(last)) == Span(db, template, after, cursor) + page
  {
    forall p | p in HoldersAfter(db, template, cursor) ensures p in HoldersAfter(db, template, after) {
      PastAdvances(after, cursor, p);
    }
    forall p | Past(Some(last), p) ensures Past(cursor, p) {
      PastAdvances(cursor, Some(last), p);
    }
  }

  /** Every non-empty page leaves fewer principals to examine. */
  lemma PageShrinksRest(db: Db, template: string, cursor: Option<Principal>, size: nat)
    requires |PageOf(db, template, cursor, size)| > 0
    ensures var page := PageOf(db, template, cursor, size);
            |HoldersAfter(db, template, Some(page[|page| - 1]))| < |HoldersAfter(db, template, cursor)|
  {
    var page := PageOf(db, template, cursor, size);
    var last := page[|page| - 1];
    PageFacts(db, template, cursor, size);
    assert last in PageSet(page);
    assert !Past(Some(last), last) by { PrincipalOrder(); }
    forall p | p in HoldersAfter(db, template, Some(last)) ensures p in HoldersAfter(db, template, cursor) {
      PastAdvances(cursor, Some(last), p);
    }
    SubsetSize(HoldersAfter(db, template, Some(last)), HoldersAfter(db, template, cursor) - {last});
  }

  /** Deleting the keys of one set of principals leaves the keys of another as they were. */
  lemma SweepsCompose(db: Db, first: set<Principal>, second: set<Principal>, job: Job)
    requires first !! second
    ensures var mid := DeleteKeys(db, Unretained(db, first, job));
            && Unretained(mid, second, job) == Unretained(db, second, job)
            && Judged(mid, second, job.template) == Judged(db, second, job.template)
            && DeleteKeys(mid, Unretained(mid, second, job)) == DeleteKeys(db, Unretained(db, first + second, job))
  {
    var mid := DeleteKeys(db, Unretained(db, first, job));
    var u1, u2 := Unretained(db, first, job), Unretained(db, second, job);
    forall id | id in Judged(db, second, job.template) ensures id !in u1 {
    }
    assert Judged(mid, second, job.template) == Judged(db, second, job.template);
    assert Unretained(mid, second, job) == u2;
    assert Unretained(db, first + second, job) == u1 + u2;
    assert db.keys - u1 - u2 == db.keys - (u1 + u2);
  }

  lemma SweptAndSparedSplit(db: Db, first: set<Principal>, second: set<Principal>, job: Job)
    requires first !! second
    ensures Unretained(db, first + second, job) == Unretained(db, first, job) + Unretained(db, second, job)
    ensures Judged(db, first + second, job.template) == Judged(db, first, job.template) + Judged(db, second, job.template)
    ensures Judged(db, first, job.template) !! Judged(db, second, job.template)
    ensures Unretained(db, first, job) <= Judged(db, first, job.template) && Unretained(db, second, job) <= Judged(db, second, job.template)
  {
  }

  lemma SweepsCount(db: Db, first: set<Principal>, second: set<Principal>, job: Job)
    requires first !! second
    ensures |Unretained(db, first + second, job)| == |Unretained(db, first, job)| + |Unretained(db, second, job)|
    ensures |Judged(db, first + second, job.template) - Unretained(db, first + second, job)| ==
            |Judged(db, first, job.template) - Unretained(db, first, job)| +
            |Judged(db, second, job.template) - Unretained(db, second, job)|
  {
    SweptAndSparedSplit(db, first, second, job);
    SplitDifference(Judged(db, first, job.template), Unretained(db, first, job),
                    Judged(db, second, job.template), Unretained(db, second, job));
  }

  lemma SplitDifference<T>(j1: set<T>, u1: set<T>, j2: set<T>, u2: set<T>)
    requires j1 !! j2 && u1 <= j1 && u2 <= j2
    ensures |u1 + u2| == |u1| + |u2|
    ensures |(j1 + j2) - (u1 + u2)| == |j1 - u1| + |j2 - u2|
  {
    DisjointSizes(u1, u2);
    DisjointSizes(j1 - u1, j2 - u2);
    assert (j1 + j2) - (u1 + u2) == (j1 - u1) + (j2 - u2);
  }

  /** The loop's state between two batches. */
  ghost predicate Progress(before: Db, now: Db, job: Job, opts: Options, cursor: Option<Principal>, r: ReconcileResult)
  {
    && opts.batchSize >= 1
    && CursorAdvanced(opts.after, cursor)
    && Covers(before, now, job, Span(before, job.template, opts.after, cursor), r)
    && r.principalsChecked == r.batchesRun * opts.batchSize
  }

  /** What a failed call leaves behind: the batches up to some cursor. */
  ghost predicate PartlySwept(before: Db, now: Db, job: Job, after: Option<Principal>, reached: Option<Principal>)
  {
    now == DeleteKeys(before, Unretained(before, Span(before, job.template, after, reached), job))
  }

  /** Stopping between two batches reports exactly what was done. */
  lemma ProgressStops(before: Db, now: Db, job: Job, opts: Options, cursor: Option<Principal>, r: ReconcileResult)
    requires Progress(before, now, job, opts, cursor, r)
    requires opts.maxBatches > 0 ==> r.batchesRun <= opts.maxBatches
    ensures Leg(before, now, job, opts, r.(done := false, cursor := cursor))
    ensures PartlySwept(before, now, job, opts.after, cursor)
  {
  }

  lemma ProgressStart(before: Db, job: Job, opts: Options)
    requires opts.batchSize >= 1
    ensures Progress(before, before, job, opts, opts.after, ReconcileResult(0, 0, 0, 0, None, false))
  {
    EmptySpan(before, job, opts.after);
  }

  lemma EmptySpan(db: Db, job: Job, after: Option<Principal>)
    ensures Span(db, job.template, after, after) == {} && Unretained(db, {}, job) == {}
    ensures Judged(db, {}, job.template) == {} && DeleteKeys(db, {}) == db
  {
    assert db.keys - {} == db.keys;
  }

  /** The counters after a batch. */
  function Counted(r: ReconcileResult, page: nat, swept: nat, spared: nat): ReconcileResult
  {
    r.(batchesRun := r.batchesRun + 1, principalsChecked := r.principalsChecked + page,
       keysSwept := r.keysSwept + swept, keysSpared := r.keysSpared + spared)
  }

  /** The tables and counters after the batch that starts at the cursor. */
  ghost function BatchDb(now: Db, job: Job, opts: Options, cursor: Option<Principal>): Db
    requires opts.batchSize >= 1
  {
    DeleteKeys(now, Unretained(now, PageSet(PageOf(now, job.template, cursor, opts.batchSize)), job))
  }

  ghost function BatchResult(now: Db, job: Job, opts: Options, cursor: Option<Principal>, r: ReconcileResult): ReconcileResult
    requires opts.batchSize >= 1
  {
    var page := PageOf(now, job.template, cursor, opts.batchSize);
    var doomed := Unretained(now, PageSet(page), job);
    Counted(r, |page|, |doomed|, |Judged(now, PageSet(page), job.template) - doomed|)
  }

  lemma CoversMore(before: Db, now: Db, job: Job, first: set<Principal>, second: set<Principal>, r: ReconcileResult)
    requires Covers(before, now, job, first, r) && first !! second
    ensures var doomed := Unretained(now, second, job);
            Covers(before, DeleteKeys(now, doomed), job, first + second,
                   Counted(r, |second|, |doomed|, |Judged(now, second, job.template) - doomed|))
  {
    SweepsCompose(before, first, second, job);
    SweepsCount(before, first, second, job);
    DisjointSizes(first, second);
  }

  /** Deleting keys moves nobody: a page is the same before and after. */
  lemma SamePages(before: Db, now: Db, template: string, cursor: Option<Principal>, size: nat)
    requires now.members == before.members
    ensures PageOf(now, template, cursor, size) == PageOf(before, template, cursor, size)
  {
    assert Holders(now, template) == Holders(before, template);
    assert HoldersAfter(now, template, cursor) == HoldersAfter(before, template, cursor);
  }

  /** A batch adds its page to what the loop has covered. */
  lemma BatchCovers(before: Db, now: Db, job: Job, opts: Options, cursor: Option<Principal>, r: ReconcileResult)
    requires Progress(before, now, job, opts, cursor, r)
    ensures PageOf(now, job.template, cursor, opts.batchSize) == PageOf(before, job.template, cursor, opts.batchSize)
    ensures var page := PageOf(now, job.template, cursor, opts.batchSize);
            && |page| <= opts.batchSize
            && Covers(before, BatchDb(now, job, opts, cursor), job,
                      Span(before, job.template, opts.after, cursor) + PageSet(page), BatchResult(now, job, opts, cursor, r))
  {
    SamePages(before, now, job.template, cursor, opts.batchSize);
    PageFacts(before, job.template, cursor, opts.batchSize);
    PageFollowsSpan(before, job.template, opts.after, cursor, opts.batchSize);
    CoversMore(before, now, job, Span(before, job.template, opts.after, cursor),
               PageSet(PageOf(before, job.template, cursor, opts.batchSize)), r);
  }

  /** A full page: the loop goes on from its last principal. */
  lemma FullBatch(before: Db, now: Db, job: Job, opts: Options, cursor: Option<Principal>, r: ReconcileResult)
    requires Progress(before, now, job, opts, cursor, r)
    requires |PageOf(now, job.template, cursor, opts.batchSize)| == opts.batchSize
    ensures var page := PageOf(now, job.template, cursor, opts.batchSize);
            var last := Some(page[|page| - 1]);
            && Progress(before, BatchDb(now, job, opts, cursor), job, opts, last, BatchResult(now, job, opts, cursor, r))
            && |HoldersAfter(before, job.template, last)| < |HoldersAfter(before, job.template, cursor)|
  {
    var page := PageOf(now, job.template, cursor, opts.batchSize);
    BatchCovers(before, now, job, opts, cursor, r);
    PageExtendsSpan(before, job.template, opts.after, cursor, opts.batchSize);
    PageShrinksRest(before, job.template, cursor, opts.batchSize);
    ProgressTo(before, BatchDb(now, job, opts, cursor), job, opts, Some(page[|page| - 1]), r, BatchResult(now, job, opts, cursor, r));
  }

  lemma ProgressTo(before: Db, after: Db, job: Job, opts: Options, last: Option<Principal>, r: ReconcileResult, r': ReconcileResult)
    requires opts.batchSize >= 1 && CursorAdvanced(opts.after, last)
    requires Covers(before, after, job, Span(before, job.template, opts.after, last), r')
    requires r.principalsChecked == r.batchesRun * opts.batchSize
    requires r'.batchesRun == r.batchesRun + 1 && r'.principalsChecked == r.principalsChecked + opts.batchSize
    ensures Progress(before, after, job, opts, last, r')
  {
    OneMoreBatch(r.batchesRun, opts.batchSize);
  }

  lemma OneMoreBatch(n: nat, size: int)
    ensures (n + 1) * size == n * size + size
  {
  }

  /** A short page: the membership is exhausted. */
  lemma LastBatch(before: Db, now: Db, job: Job, opts: Options, cursor: Option<Principal>, r: ReconcileResult)
    requires Progress(before, now, job, opts, cursor, r)
    requires |PageOf(now, job.template, cursor, opts.batchSize)| < opts.batchSize
    requires opts.maxBatches > 0 ==> r.batchesRun < opts.maxBatches
    ensures Leg(before, BatchDb(now, job, opts, cursor), job, opts,
                BatchResult(now, job, opts, cursor, r).(done := true, cursor := None))
  {
    BatchCovers(before, now, job, opts, cursor, r);
    PageFollowsSpan(before, job.template, opts.after, cursor, opts.batchSize);
    LegTo(before, BatchDb(now, job, opts, cursor), job, opts, r, BatchResult(now, job, opts, cursor, r));
  }

  lemma LegTo(before: Db, after: Db, job: Job, opts: Options, r: ReconcileResult, r': ReconcileResult)
    requires opts.batchSize >= 1
    requires Covers(before, after, job, HoldersAfter(before, job.template, opts.after), r')
    requires r.principalsChecked == r.batchesRun * opts.batchSize
    requires r'.batchesRun == r.batchesRun + 1
    requires r.principalsChecked <= r'.principalsChecked < r.principalsChecked + opts.batchSize
    requires opts.maxBatches > 0 ==> r.batchesRun < opts.maxBatches
    ensures Leg(before, after, job, opts, r'.(done := true, cursor := None))
  {
    OneMoreBatch(r.batchesRun, opts.batchSize);
    assert r'.batchesRun - 1 == r.batchesRun;
  }

  // ---- the sweep itself ----------------------------------------------------

  /** The first n batches met a live context and no fault. */
  ghost predicate Undisturbed(ctxDone: nat -> bool, fault: nat -> bool, n: nat)
  {
    forall k: nat :: k < n ==> !ctxDone(k) && !fault(k)
  }

  class Reconciler {
    const db: Tables?
    const pairs: ReadWritePairs

    constructor (db: Tables?, pairs: ReadWritePairs)
      ensures this.db == db && this.pairs == pairs
    {
      this.db, this.pairs := db, pairs;
    }

    ghost function Footprint(): set<object>
    {
      if db == null then {} else {db}
    }

    /** The next page of principals holding the template, in key order. */
    method PlanBatch(template: string, after: Option<Principal>, batchSize: nat) returns (page: seq<Principal>)
      requires db != null
      ensures page == PageOf(db.View(), template, after, batchSize)
    {
      PrincipalOrder();
      page := [];
      var rows := HoldersAfter(db.View(), template, after);
      ghost var all := rows;
      while |page| < batchSize && rows != {}
        invariant all == rows + PageSet(page)
        invariant |page| <= batchSize
        invariant Increasing(page, PrincipalBefore)
        invariant forall p, q :: p in page && q in rows ==> PrincipalBefore(p, q)
        decreases rows
      {
        LeastWitness(rows, PrincipalBefore);
        var p :| p in rows && forall q :: q in rows && q != p ==> PrincipalBefore(p, q);
        page, rows := page + [p], rows - {p};
      }
      assert IsPage(page, all, batchSize, PrincipalBefore);
      PageUnique(page, all, batchSize, PrincipalBefore);
    }

    /** Locks the page's keys, re-verifying that each owner still holds the template,
        and decides each one against the proposed scopes. */
    method JudgeBatchKeys(job: Job, page: seq<Principal>) returns (doomed: set<string>, spared: nat)
      requires db != null
      ensures var ps := PageSet(page);
              doomed == Unretained(db.View(), ps, job) &&
              spared == |Judged(db.View(), ps, job.template) - doomed|
    {
      var rows := Judged(db.View(), PageSet(page), job.template);
      var unread := rows;
      doomed, spared := {}, 0;
      ghost var kept: set<string> := {};
      while unread != {}
        invariant unread <= rows
        invariant forall id :: id in doomed <==> id in rows && id !in unread && !Retained(job, db.keys[id])
        invariant forall id :: id in kept <==> id in rows && id !in unread && Retained(job, db.keys[id])
        invariant spared == |kept|
        decreases unread
      {
        var id :| id in unread;
        unread := unread - {id};
        if Retained(job, db.keys[id]) {
          spared, kept := spared + 1, kept + {id};
        } else {
          doomed := doomed + {id};
        }
      }
      assert kept == rows - doomed;
    }

    /** One batch, one transaction: plan, judge, delete, commit; a fault at any point
        leaves the tables as they were. */
    method ReconcileOneBatch(job: Job, batchSize: nat, after: Option<Principal>, fault: bool)
      returns (ok: bool, page: seq<Principal>, swept: nat, spared: nat)
      requires db != null
      modifies db
      ensures ok <==> !fault
      ensures !ok ==> db.View() == old(db.View())
      ensures ok ==>
                var before := old(db.View());
                var ps := PageSet(page);
                && page == PageOf(before, job.template, after, batchSize)
                && db.View() == DeleteKeys(before, Unretained(before, ps, job))
                && swept == |Unretained(before, ps, job)|
                && spared == |Judged(before, ps, job.template) - Unretained(before, ps, job)|
    {
      page := PlanBatch(job.template, after, batchSize);
      var doomed;
      doomed, spared := JudgeBatchKeys(job, page);
      swept := |doomed|;
      if fault {
        return false, [], 0, 0;
      }
      db.keys := db.keys - doomed;
      ok := true;
    }

    /** ReconcileRoleTemplate. ctxDone says whether the context is over when it is
        checked before the i-th batch, fault whether the i-th batch's transaction
        fails. On a failure the batches already committed stand. */
    method ReconcileRoleTemplate(job: Job, opts: Options, ctxDone: nat -> bool, fault: nat -> bool)
      returns (out: Reconciled, ghost reached: Option<Principal>)
      requires job.pairs == pairs
      modifies Footprint()
      ensures db == null ==> out == Failed(NoTemplateReconciler)
      ensures db != null && job.template == "" ==> out == Failed(EmptyTemplateId) && db.View() == old(db.View())
      ensures db != null && job.template != "" && opts.batchSize <= 0 ==>
                out == Failed(BadBatchSize) && db.View() == old(db.View())
      ensures out.Ran? ==> db != null && Leg(old(db.View()), db.View(), job, opts, out.result)
      ensures out.Ran? && !out.result.done ==>
                ctxDone(out.result.batchesRun) || (opts.maxBatches > 0 && out.result.batchesRun == opts.maxBatches)
      ensures out.Ran? ==> Undisturbed(ctxDone, fault, out.result.batchesRun)
      ensures out.Failed? && db != null && job.template != "" && opts.batchSize > 0 ==>
                out.error == DatabaseError && exists k: nat :: Undisturbed(ctxDone, fault, k) && !ctxDone(k) && fault(k)
      ensures out.Failed? && db != null ==> PartlySwept(old(db.View()), db.View(), job, opts.after, reached)
    {
      if db == null { return Failed(NoTemplateReconciler), None; }
      EmptySpan(db.View(), job, opts.after);
      if job.template == "" { return Failed(EmptyTemplateId), opts.after; }
      if opts.batchSize <= 0 { return Failed(BadBatchSize), opts.after; }
      out, reached := RunBatches(job, opts, ctxDone, fault);
    }

    /** The batch loop. */
    method RunBatches(job: Job, opts: Options, ctxDone: nat -> bool, fault: nat -> bool)
      returns (out: Reconciled, ghost reached: Option<Principal>)
      requires db != null && opts.batchSize >= 1
      modifies db
      ensures out.Ran? ==> Leg(old(db.View()), db.View(), job, opts, out.result)
      ensures out.Ran? && !out.result.done ==>
                ctxDone(out.result.batchesRun) || (opts.maxBatches > 0 && out.result.batchesRun == opts.maxBatches)
      ensures out.Ran? ==> Undisturbed(ctxDone, fault, out.result.batchesRun)
      ensures out.Failed? ==> out.error == DatabaseError && exists k: nat :: Undisturbed(ctxDone, fault, k) && !ctxDone(k) && fault(k)
      ensures out.Failed? ==> PartlySwept(old(db.View()), db.View(), job, opts.after, reached)
    {
      ghost var before := db.View();
      var result := ReconcileResult(0, 0, 0, 0, None, false);
      var cursor := opts.after;
      ProgressStart(before, job, opts);
      while true
        invariant Progress(before, db.View(), job, opts, cursor, result)
        invariant opts.maxBatches > 0 ==> result.batchesRun <= opts.maxBatches
        invariant Undisturbed(ctxDone, fault, result.batchesRun)
        decreases |HoldersAfter(before, job.template, cursor)|
      {
        ProgressStops(before, db.View(), job, opts, cursor, result);
        if ctxDone(result.batchesRun) {
          return Ran(result.(done := false, cursor := cursor)), cursor;
        }
        if opts.maxBatches > 0 && result.batchesRun >= opts.maxBatches {
          return Ran(result.(done := false, cursor := cursor)), cursor;
        }
        var ok, page, counted := NextBatch(before, job, opts, cursor, result, fault(result.batchesRun));
        if !ok { return Failed(DatabaseError), cursor; }
        result := counted;
        if |page| == 0 {
          return Ran(result.(done := true, cursor := None)), None;
        }
        cursor := Some(page[|page| - 1]);
        if |page| < opts.batchSize {
          return Ran(result.(done := true, cursor := None)), None;
        }
      }
    }

    /** One turn of the loop: the batch and the counters after it. */
    method NextBatch(ghost before: Db, job: Job, opts: Options, cursor: Option<Principal>, result: ReconcileResult, fault: bool)
      returns (ok: bool, page: seq<Principal>, counted: ReconcileResult)
      requires db != null && Progress(before, db.View(), job, opts, cursor, result)
      requires opts.maxBatches > 0 ==> result.batchesRun < opts.maxBatches
      modifies db
      ensures ok <==> !fault
      ensures !ok ==> db.View() == old(db.View())
      ensures ok ==> counted.batchesRun == result.batchesRun + 1 && |page| <= opts.batchSize
      ensures ok && |page| == opts.batchSize ==>
                && Progress(before, db.View(), job, opts, Some(page[|page| - 1]), counted)
                && |HoldersAfter(before, job.template, Some(page[|page| - 1]))| < |HoldersAfter(before, job.template, cursor)|
      ensures ok && |page| < opts.batchSize ==>
                Leg(before, db.View(), job, opts, counted.(done := true, cursor := None))
    {
      ghost var now := db.View();
      var swept, spared;
      ok, page, swept, spared := ReconcileOneBatch(job, opts.batchSize, cursor, fault);
      counted := result;
      if ok {
        counted := Counted(result, |page|, swept, spared);
        BatchCovers(before, now, job, opts, cursor, result);
        if |page| == opts.batchSize {
          FullBatch(before, now, job, opts, cursor, result);
        } else {
          LastBatch(before, now, job, opts, cursor, result);
        }
      }
    }

    /** PreviewRoleTemplateReconciliation: counts, and nothing written. */
    method PreviewRoleTemplateReconciliation(job: Job) returns (impact: Option<Impact>)
      ensures impact.Some? <==> db != null && job.template != ""
      ensures impact.Some? ==> impact.value == Expected(db.View(), job)
    {
      if db == null || job.template == "" { return None; }
      var counts := StreamRows(db.View(), job, JoinRows(db.View(), job.template));
      PreviewReads(db.View(), job);
      impact := Some(counts);
    }

    /** The scan loop: every row once, in whatever order the join produces them. */
    method StreamRows(view: Db, job: Job, rows: set<JoinRow>) returns (impact: Impact)
      requires rows == JoinRows(view, job.template)
      ensures impact == Impact(|RowOwners(rows)|, |RowOwners(BadRows(view, job, rows))|, |RowKeys(BadRows(view, job, rows))|)
    {
      var unread := rows;
      ghost var seen: set<JoinRow> := {};
      var scanned: set<Principal>, doomed: set<Principal>, keys := {}, {}, 0;
      while unread != {}
        invariant seen == rows - unread && unread <= rows
        invariant Tally(view, job, seen, scanned, doomed, keys)
        decreases unread
      {
        var row :| row in unread;
        TallyOneMore(view, job, seen, scanned, doomed, keys, row);
        unread, seen := unread - {row}, seen + {row};
        scanned := scanned + {row.0};
        if row.1.Some? && !Retained(job, view.keys[row.1.value]) {
          keys := keys + 1;
          doomed := doomed + {row.0};
        }
      }
      assert seen == rows;
      impact := Impact(|scanned|, |doomed|, keys);
    }
  }

  /** What the scan has accumulated after some of the rows. */
  ghost predicate Tally(view: Db, job: Job, seen: set<JoinRow>, scanned: set<Principal>, doomed: set<Principal>, keys: nat)
  {
    && scanned == RowOwners(seen)
    && doomed == RowOwners(BadRows(view, job, seen))
    && keys == |RowKeys(BadRows(view, job, seen))|
  }

  lemma TallyOneMore(view: Db, job: Job, seen: set<JoinRow>, scanned: set<Principal>, doomed: set<Principal>, keys: nat, row: JoinRow)
    requires Tally(view, job, seen, scanned, doomed, keys)
    requires seen + {row} <= JoinRows(view, job.template) && row !in seen
    ensures row.1.Some? ==> row.1.value in view.keys
    ensures if row.1.Some? && !Retained(job, view.keys[row.1.value])
            then Tally(view, job, seen + {row}, scanned + {row.0}, doomed + {row.0}, keys + 1)
            else Tally(view, job, seen + {row}, scanned + {row.0}, doomed, keys)
  {
    RowAdded(view, job, seen, row);
  }

  /** What a sweep of these tables for this job would touch. */
  function Expected(db: Db, job: Job): Impact
  {
    var doomed := Unretained(db, Holders(db, job.template), job);
    Impact(|Holders(db, job.template)|, |Owners(db, doomed)|, |doomed|)
  }

  /** The owners of some user-owned keys. */
  function Owners(db: Db, ids: set<string>): set<Principal>
  {
    set id | id in ids && id in db.keys && db.keys[id].user.Some? ::
      Principal(db.keys[id].org, db.keys[id].user.value)
  }

  /** One row of the LEFT JOIN: a principal and one of its keys, or none. */
  type JoinRow = (Principal, Option<string>)

  /** The rows the preview's LEFT JOIN streams. */
  function JoinRows(db: Db, template: string): set<JoinRow>
  {
    (set id | id in Judged(db, Holders(db, template), template) ::
       (Principal(db.keys[id].org, db.keys[id].user.value), Some(id))) +
    (set p | p in Holders(db, template) && Judged(db, {p}, template) == {} :: (p, None))
  }

  function RowOwners(rows: set<JoinRow>): set<Principal>
  {
    set row | row in rows :: row.0
  }

  function RowKeys(rows: set<JoinRow>): set<string>
  {
    set row | row in rows && row.1.Some? :: row.1.value
  }

  /** The rows that name a key the proposed scopes do not cover. */
  function BadRows(db: Db, job: Job, rows: set<JoinRow>): set<JoinRow>
  {
    set row | row in rows && row.1.Some? && row.1.value in db.keys && !Retained(job, db.keys[row.1.value])
  }

  /** A key has one owner, so a new row never names a key already counted. */
  lemma RowAdded(db: Db, job: Job, seen: set<JoinRow>, row: JoinRow)
    requires seen + {row} <= JoinRows(db, job.template) && row !in seen
    ensures RowOwners(seen + {row}) == RowOwners(seen) + {row.0}
    ensures row.1.Some? ==> row.1.value in db.keys
    ensures var bad, bad' := BadRows(db, job, seen), BadRows(db, job, seen + {row});
            if row.1.Some? && !Retained(job, db.keys[row.1.value])
            then RowOwners(bad') == RowOwners(bad) + {row.0} && |RowKeys(bad')| == |RowKeys(bad)| + 1
            else bad' == bad
  {
    var bad, bad' := BadRows(db, job, seen), BadRows(db, job, seen + {row});
    assert row in JoinRows(db, job.template);
    if row.1.Some? && !Retained(job, db.keys[row.1.value]) {
      assert bad' == bad + {row};
      assert RowOwners(bad') == RowOwners(bad) + {row.0};
      assert RowKeys(bad') == RowKeys(bad) + {row.1.value};
      forall other | other in seen ensures other.1 == row.1 ==> other == row {
        assert other in JoinRows(db, job.template);
      }
      assert row.1.value !in RowKeys(bad);
    } else {
      assert bad' == bad;
    }
  }

  /** What the join as a whole says. */
  lemma PreviewReads(db: Db, job: Job)
    ensures var rows := JoinRows(db, job.template);
            var bad := BadRows(db, job, rows);
            var doomed := Unretained(db, Holders(db, job.template), job);
            && RowOwners(rows) == Holders(db, job.template)
            && RowKeys(bad) == doomed
            && RowOwners(bad) == Owners(db, doomed)
  {
    var rows := JoinRows(db, job.template);
    var holders := Holders(db, job.template);
    forall p | p in holders ensures p in RowOwners(rows) {
      if Judged(db, {p}, job.template) == {} {
        assert (p, None) in rows;
      } else {
        var id :| id in Judged(db, {p}, job.template);
        assert (p, Some(id)) in rows;
      }
    }
    forall id | id in Unretained(db, holders, job)
      ensures (Principal(db.keys[id].org, db.keys[id].user.value), Some(id)) in BadRows(db, job, rows)
    {
      assert (Principal(db.keys[id].org, db.keys[id].user.value), Some(id)) in rows;
    }
  }
}
