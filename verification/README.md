# A model of the suite's identity module

This project models the parts of the identity module whose correctness spans several
functions, several transactions or several processes, and proves what they promise. Tables
are maps, a transaction is a set of buffered writes that commits or aborts as a unit, row
locks are part of the state, and any statement may fail. Classes carry the fields the code
updates; their methods are proved against functions or relations on values, and the lemmas
beside them are about those.

The modules, by subject:

- **Transactional audit outbox.** `OutboxProtocol` is the distributed protocol: application
  transactions, any number of relays, a destination on its own connection, a pruner, crashes
  between any two steps. `AuditedCommit` is the deferred constraint trigger as a commit
  predicate, composed with it. `Relay` is the relay's own code and `RelayProgress` ties it to
  the protocol and to a progress bound. `TableSink` is the idempotent insert and
  `SinkRefinement` the proof that it is the protocol's delivery. `ConstFold` is the constant
  folding of the source guard. `Intents` is what an intent says.
- **Authority and credentials.** `Scopes` is the scope algebra, `IdentityDb` the tables,
  `AuthorityReduction` the four reductions, `ReductionRace` their statements while other
  transactions run, `TemplateReconcile` the batched sweep of a role template, `ReconcileChain`
  its chains of resumed calls, `ReconcileRace` its behaviour while other transactions run,
  `TemplateWrite` the sweep-then-mutate protocol and `AuthorityRuns`
  the invariant over all of them: no key outlives its owner's authority.
- **Tenant predicate.** `SqlWhere` reads a WHERE clause under three-valued logic, `OrgScopes`
  renders the tenant predicate, `AuditQueries` builds the audit log's two statements and
  `RetentionSweep` is the batched deletion around legal holds.
- **Concurrent state.** `PlatformAdmin` and `CarrierRace` (the administrator floor),
  `OAuthStore` and `OAuthState` (single-use states and replay markers), `FirstLogin` and
  `FirstLoginRace` (the login race), `OrgCache` and `OrgCacheRace` (the generation-guarded
  cache), `SelfPruning` (deduplication claims and revoked tokens).
- **Text encoders.** `LikePattern` and `SqlLiteral`, each against a reader.
- `Common` and `Ordering` hold what they share: ordered pages and the batches drawn from them.

## Where the code and its comments part

The model follows the code; these are the places where that matters.

- The reducer's documentation (`identity/store/authority_reduction.go:141-143`) says that its
  FOR UPDATE read keeps keys from being minted or re-scoped meanwhile. A key it saw is not
  re-scoped (`LockedKeyStands`), but row locks do not stop an INSERT (`MintedKeyOutlives`), nor
  a template from being narrowed after its scopes were read back (`NarrowedTemplateOutlives`).
  With the templates at rest, a committed reduction leaves the user's keys backed if and only
  if the ones its locking read did not see are: `BackedIffUnseenBacked`.
- A template write passes the caller's cursor to its sweep
  (`identity/store/template_write.go:200`), so a write given a cursor that no earlier part of
  the same chain produced can reach Done and mutate with keys unswept behind it.
  `CompletedWriteKeepsKeysBacked` is the exact condition, `StaleCursorStrandsAKey` an instance.
- A batch of the relay is said not to let one poisoned record block the entries behind it
  (`identity/auditoutbox/relay.go:219-224`). One does not, but a full batch of them at the head
  of the queue does, for good: `DeliversNothingIffBlocked`, `BlockedForever`, `FrontExists`.
- The sink's plan is said to be discarded when a migration added or dropped a column
  (`identity/auditoutbox/sink.go:170-174`). A dropped column raises 42703 and is noticed; an
  added one raises nothing and stays unwritten until the process restarts: `KeepsCachedPlan`.
- The constant folding speaks of two passes (`identity/auditoutbox/guard.go:213`) and makes up
  to one per name: `PackageStrings`.
- Retention means inclusion of authority only for coherent pair tables:
  `CoherentIffRetainedMeansIncluded` is the exact condition. The tables themselves belong to the
  applications; the flat shape the code documents meets it (`FlatIsCoherent`).
- The assignment ceiling equals retention except that a wildcard caller may hand out a list
  with an empty scope in it: `CeilingIsRetention`.
- The tenant predicate is one decision taken in two places; the database compares identifiers as
  UUIDs and the in-memory check (`identity/store/org_scope.go:179-192`) as texts. A scope written
  with an upper-case UUID selects rows the check refuses, never the reverse: `ClauseSelectsMore`;
  they agree on every row exactly for scopes closed under canonical spelling: `AgreeIffCanonical`.
- A deduplication claim is remembered for its ttl, over every run, exactly when the ttl and the
  clock skew fit in the seven-day grace; the code does not enforce it: `RemembersIffItFits`,
  with `LongTtlIsForgotten` the run that forgets for every grace, skew and ttl that do not fit.
- A second revocation of a token to a later time does not extend its denial:
  `FirstExpiryDecides`.

`dafny verify dfyconfig.toml` checks the whole project.

## Model

| member | source | states |
|---|---|---|
| `OutboxProtocol.Conservation` | identity/auditoutbox/relay.go:225-289 | in every interleaving of commits, any number of relays, sink failures, aborts and prunes, each committed intent is pending or has its one record at the destination; a row marked delivered has its record; no two relays hold one row. The record is the intent as the destination keeps it; `SinkRefinement.TableConservation` says the same of the columns a table has |
| `OutboxProtocol.StepKeepsInv` | identity/auditoutbox/relay.go:225-289 | every protocol step keeps stores, history and open claims in agreement |
| `OutboxProtocol.ClaimIsPage` | identity/auditoutbox/outbox.go:102-107 | the claim is the oldest pending rows nobody else holds: distinct, free, as many as the limit allows, and nothing skipped that is older than something taken |
| `OutboxProtocol.ClaimIsDisjoint` | identity/auditoutbox/outbox.go:211-219 | SKIP LOCKED keeps the claims of concurrent relays disjoint |
| `OutboxProtocol.ApplyMarksAt` | identity/auditoutbox/outbox.go:108-113 | committing a batch changes each claimed row by its own mark and no other row |
| `OutboxProtocol.OnlyDeliveryEndsPending` | identity/auditoutbox/relay.go:243-288 | a pending row stops being pending only by the commit of a relay that holds it and whose sink accepted it; pruning never reaches it |
| `OutboxProtocol.StepKeepsRecords` | identity/auditoutbox/sink.go:226-229 | records at the destination are never changed or removed by any step |
| `OutboxProtocol.ReusedIdLosesRecord` | identity/auditoutbox/sink.go:139-145 | in every run after an event id has been reused, the new intent is accounted for exactly while it is pending, unless the old record says the same |
| `OutboxProtocol.ReusedIdIsMarkedDelivered` | identity/auditoutbox/sink.go:139-145 | and a run gets there: claimed, offered, accepted without being inserted, marked delivered |
| `AuditedCommit.FiresIffEverySubjectRecorded` | identity/auditoutbox/ddl.go:135-157 | the trigger lets a change through exactly when the operation is unguarded or every subject of it, old and new, is non-NULL and some intent of the transaction carries the pinned action verbatim, the resource type, and the subject up to ASCII case |
| `AuditedCommit.CommitsIffEveryChangeRecorded` | identity/auditoutbox/ddl.go:261-270 | read off the statements themselves: a transaction commits exactly when none of them raised and every subject of every guarded change has such an intent written before or after it and not withdrawn |
| `AuditedCommit.RaisesIff` | identity/auditoutbox/outbox.go:155-196 | a statement raises exactly when it writes an intent without an action, with detail that cannot be encoded, or under an identifier already used |
| `LikePattern.LowerIsUpToCase` | identity/auditoutbox/ddl.go:132-148 | comparing lowered texts is equality letter by letter, ASCII case aside |
| `AuditedCommit.RendersIffItCanRefuse` | identity/auditoutbox/ddl.go:304-317 | a spec with a resource type renders exactly when its trigger can refuse some change |
| `AuditedCommit.EitherOrder` | identity/auditoutbox/ddl.go:261-270 | deferral: however mutations and outbox writes are interleaved, transactions with the same outbox writes in order come to the same commit exactly when they make the same changes in order |
| `AuditedCommit.SystemStepKeepsInv` | identity/auditoutbox/ddl.go:136-157 | composed with the outbox, each step keeps every committed guarded change recorded by its own transaction |
| `AuditedCommit.GuardedMutationAlwaysAccounted` | identity/auditoutbox/ddl.go:227-253 | end to end: at every moment after a guarded change commits, each subject of it has an intent from the same transaction with the pinned action, the resource type and the subject in its own fields, and that intent is pending or its record is at the destination |
| `Relay.Outbox.Enqueue` | identity/auditoutbox/outbox.go:155-196 | writes the intent into the caller's transaction only; refuses a nil transaction, a nil intent, an empty action and detail that cannot be encoded before anything is written; fills in a missing id and time and keeps given ones |
| `Relay.Outbox.Claim` | identity/auditoutbox/outbox.go:220-249 | returns exactly the page of the claim statement |
| `Relay.Outbox.PruneDelivered` | identity/auditoutbox/outbox.go:306-322 | deletes and counts the oldest delivered rows before the cutoff, at most the limit, a limit of zero or less meaning 1000 |
| `Relay.Relay.DeliverAll` | identity/auditoutbox/relay.go:253-277 | offers each claimed intent in order; a rejection is recorded and the batch goes on, a mark that cannot be written stops it, and what the sink inserted by then stays |
| `Relay.Relay.DeliverBatch` | identity/auditoutbox/relay.go:225-289 | new state, counts and error of one batch under every fault, and row by row: an accepted intent is delivered, a rejected one stays pending with the sink's reason, each with one more attempt and no other row touched; on any error the outbox rows are as they were |
| `Relay.BatchIsTold` | identity/auditoutbox/outbox.go:108-113 | that row-by-row account holds of every batch, and a record is there for exactly the intents the sink inserted |
| `Relay.Relay.RunBatches` | identity/auditoutbox/relay.go:196-212 | up to ten batches, stopping at the first error or short batch |
| `Relay.Relay.RunCycle` | identity/auditoutbox/relay.go:196-216 | the cycle's final stores: the batches' result less what the pruner took |
| `Relay.Relay.Prune` | identity/auditoutbox/relay.go:351-368 | a negative retention or a failed prune removes nothing; otherwise pending rows stay, delivered rows stay for the retention (seven days when unset), and past it they go, as many as the batches of a cycle |
| `Relay.PruneTakes` | identity/auditoutbox/outbox.go:306-322 | the pruner's statement takes only rows delivered before its cutoff, and all of them when they fit |
| `RelayProgress.BatchRefinesProtocol` | identity/auditoutbox/relay.go:225-289 | whatever faults a batch meets, its effect on both stores is a run of the outbox protocol |
| `RelayProgress.PruneRefinesProtocol` | identity/auditoutbox/outbox.go:306-322 | so is the pruner's deletion, and no pending row is touched |
| `RelayProgress.QuietBatch` | identity/auditoutbox/relay.go:253-288 | a fault-free batch takes exactly the deliverable part of its page out of the queue and counts it |
| `RelayProgress.DeliversNothingIffBlocked` | identity/auditoutbox/relay.go:219-224 | a batch delivers nothing exactly when nothing is deliverable or a whole batch of undeliverable intents is older than everything deliverable |
| `RelayProgress.BatchMakesProgress` | identity/auditoutbox/relay.go:225-289 | with fewer undeliverable intents than a batch holds, every batch delivers while anything is deliverable, a full one at least the difference, and a short one drains the queue |
| `RelayProgress.CycleMakesProgress` | identity/auditoutbox/relay.go:196-216 | one cycle drains everything deliverable or delivers that quantum once per batch |
| `RelayProgress.CyclesDrain` | identity/auditoutbox/relay.go:187-195 | over repeated cycles, the pruner included, the number of deliverable pending intents falls by ten quanta a cycle until it is zero |
| `RelayProgress.DrainedInTime` | identity/auditoutbox/relay.go:187-195 | as many cycles as there are deliverable intents leave only undeliverable ones pending |
| `RelayProgress.BlockedForever` | identity/auditoutbox/relay.go:219-224 | the bound is sharp: behind a full batch of undeliverable intents at the head of the queue no number of cycles, pruner included, delivers anything |
| `RelayProgress.FrontExists` | identity/auditoutbox/relay.go:219-224 | for every batch size a table has such a front of exactly that size, with a deliverable intent behind it |
| `TableSink.TableSink.Plan` | identity/auditoutbox/sink.go:200-249 | the cached plan, or one probed from the destination and cached only on success; its columns, placeholders and extractors are aligned and it never lacks id or action |
| `TableSink.TableSink.Probe` | identity/auditoutbox/sink.go:217-239 | the probe's loop yields exactly the canonical columns the destination has, each under its own placeholder, and reports the required ones missing |
| `TableSink.TableSink.Bind` | identity/auditoutbox/sink.go:160-167 | one argument per extractor in order, failing only on metadata that cannot be encoded |
| `TableSink.AlignedRecords` | identity/auditoutbox/sink.go:160-169 | positional binding of an aligned plan stores under each column the intent's own field |
| `TableSink.TableSink.Insert` | identity/auditoutbox/sink.go:160-182 | under any aligned plan: which of the five answers, and that the record is then there exactly if it was, on success, or when only the reply was lost |
| `TableSink.TableSink.Deliver` | identity/auditoutbox/sink.go:146-182 | the whole answer: under a cached plan the plan's own columns decide, without one the probe and the required columns; metadata, refusal, lost reply and undefined column are told apart; the record is there exactly if it was, on success, or when only the reply was lost; every other row is untouched and only a plan naming a lost column is discarded |
| `TableSink.ReadsBack` | identity/auditoutbox/sink.go:84-98 | a delivered row reads back as the intent in every column it has, and as the whole intent when it has all of them |
| `TableSink.LosesOnlyWhatIsMissing` | identity/auditoutbox/sink.go:84-98 | a row reads back as the whole intent exactly when the columns it lacks would have held nothing |
| `TableSink.Redeliver` | identity/auditoutbox/sink.go:139-145 | delivering one event again never adds to or changes what the first success left, and a stale plan costs one delivery, not the process |
| `TableSink.KeepsCachedPlan` | identity/auditoutbox/sink.go:170-179 | a column added under a cached plan raises nothing, so the plan stays: a row it writes has every column of the destination exactly when nothing was added since the probe |
| `SinkRefinement.DeliverOffered` | identity/auditoutbox/sink.go:146-182 | a table sink's delivery of the intent a relay offers is a delivery step of the protocol, accepted exactly when the sink reports success, under every fault and every plan |
| `SinkRefinement.AttemptKeepsHolds` | identity/auditoutbox/sink.go:226-229 | a table that holds the records of the protocol's destination holds them after the delivery |
| `SinkRefinement.TableConservation` | identity/auditoutbox/relay.go:225-289 | conservation at the rows: in every run beside the table a committed intent is pending or has one row that reads back as it in every column the row has, and wholly unless a missing column would have held something; no row is of anything else |
| `ConstFold.CollectRaw` | identity/auditoutbox/guard.go:216-235 | collects the declarations in order |
| `ConstFold.LastDeclarationWins` | identity/auditoutbox/guard.go:229-233 | a name declared more than once is collected with its last value |
| `ConstFold.OnlyDeclared` | identity/auditoutbox/guard.go:229-233 | a name no specification gives a value is not collected |
| `ConstFold.OnePass` | identity/auditoutbox/guard.go:241-250 | one pass in any order keeps the result sound, and a pass that resolves nothing has nothing left to resolve |
| `ConstFold.PackageStrings` | identity/auditoutbox/guard.go:215-255 | for every iteration order the result is exactly the names with a finite derivation from literals and concatenations, with the derived value, in at most one pass per name |
| `ConstFold.EvalIsSound` | identity/auditoutbox/guard.go:259-287 | whatever folds from sound results is what the expression denotes: a literal its unquoted text, a sum its operands' texts in order |
| `ConstFold.ClosedIsComplete` | identity/auditoutbox/guard.go:251-253 | stopping at the first pass without progress loses nothing |
| `ConstFold.OrderDoesNotMatter` | identity/auditoutbox/guard.go:241-250 | two runs with different map orders return the same map |
| `ConstFold.LeastFixpoint` | identity/auditoutbox/guard.go:210-214 | the result is a fixpoint of folding and is contained in every other |
| `ConstFold.CyclesStayUnresolved` | identity/auditoutbox/guard.go:237-240 | names that lead into one another for ever stay unresolved, and so does anything built on them |
| `Scopes.CoherentIffRetainedMeansIncluded` | identity/store/authority_reduction.go:229-236 | retention means inclusion of authority, for all lists without an empty scope, exactly when the pair table is coherent |
| `Scopes.RetainedIffIncluded` | identity/store/authority_reduction.go:229-236 | under a coherent table, retained if and only if everything satisfied before is satisfied after |
| `Scopes.FlatIsCoherent` | identity/auth/scopes.go:54-70 | the shape in use, no write scope a key and admin not a key, is coherent |
| `Scopes.IncoherentWitness` | identity/auth/scopes.go:54-70 | every incoherent table retains some credential that can do more than its owner |
| `Scopes.RetainedReflexive` | identity/store/authority_reduction.go:229-236 | a list retains itself exactly when it has no empty scope |
| `Scopes.RetainedTransitive` | identity/store/authority_reduction.go:229-236 | retention is transitive under a coherent table |
| `Scopes.RetainedMonotone` | identity/store/authority_reduction.go:229-236 | keeping more never retains less |
| `Scopes.NoPairsOnlyOverRevokes` | identity/store/authority_reduction.go:229-236 | leaving the pair table out can only over-revoke |
| `Scopes.CeilingIsRetention` | identity/auth/scopes.go:104-120 | the assignment ceiling and the retention predicate agree except for a wildcard caller and a list holding an empty scope |
| `AuthorityReduction.Reducer.JudgeKeys` | identity/store/authority_reduction.go:453-480 | dooms exactly the locked rows not backed by their owner's current scopes and counts the others |
| `AuthorityReduction.Reducer.SweepDerivedKeys` | identity/store/authority_reduction.go:434-503 | deletes exactly those keys of one user in the organizations that changed, or fails: on a failed statement, and whenever its DELETE does not match every row judged |
| `AuthorityReduction.Reducer.RemoveMember` | identity/store/authority_reduction.go:245-264 | removal and sweep commit together or nothing changes; it commits exactly when no statement, sweep or application sweep fails, and out of scope and absent are both NotFound |
| `AuthorityReduction.Reducer.UpdateMemberRoleTemplate` | identity/store/authority_reduction.go:278-301 | the same for a reassignment by template id; an unknown id is the foreign key's refusal |
| `AuthorityReduction.Reducer.UpdateMemberRole` | identity/store/authority_reduction.go:309-337 | the same for a reassignment by template name, an unknown name refused before the membership is looked at |
| `AuthorityReduction.Reducer.RemoveAllMembershipsForUser` | identity/store/authority_reduction.go:351-381 | the same for every membership of a user inside the scope, reporting each organization once; with none there it commits without a sweep |
| `AuthorityReduction.ReductionStaysInScope` | identity/store/authority_reduction.go:249-255 | whatever a reduction changes is a membership of its own user in an organization the scope permits; a bulk removal takes exactly those; none appears |
| `AuthorityReduction.ReductionWrites` | identity/store/authority_reduction.go:245-381 | the new membership row of each reduction, and the organizations it reports: exactly the ones whose membership it addressed |
| `AuthorityReduction.CommittedKeys` | identity/store/authority_reduction.go:434-503 | on any tables a committed reduction deletes a key exactly when it is the user's, in an addressed organization, and asks for more than the user holds there now |
| `AuthorityReduction.CommittedReport` | identity/store/authority_reduction.go:404-424 | the report names the user, the organizations addressed and as many revoked keys as have gone |
| `AuthorityReduction.CommitsIffNothingFailed` | identity/store/authority_reduction.go:404-424 | a commit means that no statement, no sweep and not the application's own sweep failed, and every refusal has one of those causes |
| `AuthorityReduction.ReductionSweepsExactly` | identity/store/authority_reduction.go:434-503 | a committed reduction deletes a key if and only if the new memberships no longer back it |
| `AuthorityReduction.ReductionKeepsKeysBacked` | identity/store/authority_reduction.go:384-424 | a committed reduction on tables nobody else changes leaves every key backed; `ReductionRace.BackedIffUnseenBacked` is the condition when others do |
| `AuthorityReduction.ReductionIsLocal` | identity/store/authority_reduction.go:384-424 | no other principal's authority moves |
| `AuthorityReduction.WideningRevokesNothing` | identity/store/authority_reduction.go:229-236 | a reassignment that widens authority deletes nothing |
| `ReductionRace.WriteIsTheReduction` | identity/store/authority_reduction.go:384-424 | the uncommitted membership write of the interleaved protocol is the reduction's own statement |
| `ReductionRace.LockedKeyStands` | identity/store/authority_reduction.go:440-448 | with other transactions running, a key the locking read saw is not re-scoped, given away or deleted by anyone else before the transaction ends |
| `ReductionRace.CommitDeletesTheJudged` | identity/store/authority_reduction.go:434-503 | in every interleaving the commit deletes exactly the keys judged unretained at the locking read, and leaves the kept ones and the ones it did not see |
| `ReductionRace.BackedIffUnseenBacked` | identity/store/authority_reduction.go:138-143 | in every interleaving a committed reduction leaves the user's keys in the affected organizations backed if and only if the kept and the unseen ones are, and, the templates granting what they did when read back, if and only if the unseen ones are |
| `ReductionRace.QuietTemplatesSameAuthority` | identity/store/authority_reduction.go:506-540 | with the templates unchanged from the read-back on, the scopes judged by are the scopes held |
| `ReductionRace.MintedKeyOutlives` | identity/store/api_key_repository.go:106-140 | a run from backed tables in which a key inserted after the locking read, backed when it was minted, is left unbacked by the commit |
| `ReductionRace.NarrowedTemplateOutlives` | identity/store/authority_reduction.go:506-540 | a run from backed tables in which nothing is minted and a kept key is left unbacked, its template having been narrowed after the read-back |
| `TemplateReconcile.Reconciler.PlanBatch` | identity/store/template_reconcile.go:436-461 | the page is the first holders strictly after the cursor in key order, at most the batch size |
| `TemplateReconcile.Reconciler.JudgeBatchKeys` | identity/store/template_reconcile.go:502-564 | dooms exactly the page's keys whose owner still holds the template and whose scopes are unretained |
| `TemplateReconcile.Reconciler.ReconcileOneBatch` | identity/store/template_reconcile.go:382-409 | one batch deletes and counts exactly its page's unretained keys, or, exactly when it meets a fault, changes nothing |
| `TemplateReconcile.Reconciler.ReconcileRoleTemplate` | identity/store/template_reconcile.go:322-376 | a call covers the holders from its cursor to the one it reports, to the end when Done; it stops early only for its context or its batch limit and fails only at a batch that fails; a failure leaves the batches already committed |
| `TemplateReconcile.Reconciler.PreviewRoleTemplateReconciliation` | identity/store/template_reconcile.go:191-230 | counts the holders, the keys a full sweep would delete and their owners, writing nothing |
| `TemplateReconcile.LegRows` | identity/store/template_reconcile.go:322-376 | a call row by row: a key goes exactly when its owner holds the template, lies between the two cursors in primary-key order, and the key asks for more than the proposed scopes grant |
| `TemplateReconcile.ExpectedRows` | identity/store/template_reconcile.go:191-230 | the preview's three counts on the rows: holders, stranded keys, holders of at least one of those |
| `TemplateReconcile.PageExtendsSpan` | identity/store/template_reconcile.go:444-450 | a page carries the examined span exactly to its last principal |
| `TemplateReconcile.SweepsCompose` | identity/store/template_reconcile.go:502-564 | sweeping two disjoint sets of principals in turn is sweeping their union |
| `TemplateReconcile.PreviewReads` | identity/store/template_reconcile.go:232-249 | what the preview's join says as a whole: all holders, exactly the doomed keys, and their owners |
| `ReconcileChain.ChainRefinesUnbatched` | identity/store/template_reconcile.go:322-376 | for every batch size and every way of stopping and resuming, a chain that reaches Done deletes exactly the keys one unbatched filter would, and its totals are the preview's |
| `ReconcileChain.ChainTerminates` | identity/store/template_reconcile.go:331-373 | a chain of more productive calls than there are holders has reached Done |
| `ReconcileRace.DeletesOnlyWhatItJudged` | identity/store/template_reconcile.go:463-564 | with memberships and keys changing between statements, a key is deleted only if at the locking read its owner held the template and its scopes were unretained |
| `ReconcileRace.DoneLeavesNoStubbornKey` | identity/store/template_reconcile.go:322-376 | when a chain from the beginning is Done, each call with a batch size of its own, no key stayed unretained in the hands of one holder throughout |
| `ReconcileRace.DoneMeansGone` | identity/store/template_reconcile.go:322-376 | such a key, its id never reused, is gone |
| `TemplateWrite.TemplateWriter.Write` | identity/store/template_write.go:174-220 | refuses what the statement would refuse before sweeping; fails only where the sweep does; mutates exactly when a finished sweep is followed by a statement that succeeds, and otherwise says which of the two it was and what was swept |
| `TemplateWrite.TemplateWriter.UpdateRoleTemplate` | identity/store/template_write.go:140-151 | the update through that protocol, with the same answers |
| `TemplateWrite.TemplateWriter.DeleteRoleTemplate` | identity/store/template_write.go:166-170 | the deletion through it, with the same answers, every member retaining nothing |
| `TemplateWrite.CompletedWriteKeepsKeysBacked` | identity/store/template_write.go:174-220 | a completed write keeps every key backed exactly when its sweep started from a cursor with nothing unswept behind it |
| `TemplateWrite.CompletedWriteSweepsExactly` | identity/store/template_write.go:174-220 | from the beginning it deletes a key if and only if the changed template no longer backs it |
| `TemplateWrite.WideningSweepsNothing` | identity/store/template_write.go:126-139 | a pure widening deletes nothing wherever the sweep stops |
| `TemplateWrite.MutateIsLocal` | identity/store/role_template_repository.go:177-180 | after the change every holder's authority is the proposal and nobody else's moved |
| `TemplateWrite.StaleCursorStrandsAKey` | identity/store/template_write.go:200-220 | a write handed a cursor of its own can strand a key its sweep never looked at |
| `AuthorityRuns.NoKeyOutlivesAuthority` | identity/store/authority_reduction.go:384-540 | over every run mixing the four reductions, template writes resumed from where they stopped, keys minted, re-scoped or deleted while backed, memberships joined, failures and aborts, each user-owned key stays retained under its owner's current scopes |
| `OrgScopes.OrgScopeOrganizations` | identity/store/org_scope.go:87-102 | the allowlist is sorted, without repeats and without the empty id |
| `OrgScopes.ScopeIsItsSet` | identity/store/org_scope.go:87-102 | two allowlists are equal scopes exactly when they name the same organizations |
| `OrgScopes.Sql` | identity/store/org_scope.go:243-258 | the rendered clause is never empty and binds at most one argument |
| `OrgScopes.SqlIsUnit` | identity/store/org_scope.go:243-258 | wherever it is spliced the clause is read alone and has the scope's own truth value |
| `OrgScopes.SqlAgreesWithPermits` | identity/store/org_scope.go:179-192 | under three-valued logic, identifiers compared as written, the clause selects a row exactly when the in-memory check admits its owner |
| `OrgScopes.ClauseSelectsMore` | identity/store/org_scope.go:243-258 | with the bound array read as UUIDs, the clause selects what the check admits and, beyond that, exactly the rows whose owner the scope names in another spelling only |
| `OrgScopes.AgreeIffCanonical` | identity/store/org_scope.go:179-192 | the clause and the check agree on every row exactly when the scope is platform-wide or holds the canonical form of each identifier it holds |
| `OrgScopes.SqlUnsatisfiableIffMatchesNothing` | identity/store/org_scope.go:163-165 | the clause is unsatisfiable exactly for the scopes that match nothing |
| `OrgScopes.MembershipSqlAgrees` | identity/store/org_scope.go:282-305 | the membership clause selects a user exactly when the scope reaches him through a membership, or through having none |
| `SqlWhere.SpliceUnit` | identity/store/org_scope.go:322-328 | appending AND and a unit clause to a conjunction means their conjunction |
| `SqlWhere.ParenthesisedOrIsUnit` | identity/store/org_scope.go:250-254 | a parenthesised disjunction is a unit |
| `SqlWhere.BareOrLeaks` | identity/store/org_scope.go:236-242 | without the parentheses a row outside the scope passes |
| `AuditQueries.AppendFilter` | identity/store/audit_repository.go:212-260 | each filter block keeps both statements, the arguments and the placeholder counter in step |
| `AuditQueries.BuildListAuditLogsQueries` | identity/store/audit_repository.go:186-278 | for every combination of filters both statements bind every placeholder to its own value and select exactly the rows inside the scope whose user, e-mail, organization, action, resource type and time satisfy each filter set |
| `AuditQueries.MatchesIsEach` | identity/store/audit_repository.go:212-260 | the numbered filter blocks together are the seven conditions, each on its own named column |
| `AuditQueries.AtomIsFilter` | identity/store/audit_repository.go:212-260 | each appended comparison, with its argument, is the filter it stands for, NULL columns included |
| `LikePattern.EscapedMatchesLiterally` | identity/store/like.go:15-19 | an escaped string matches itself and nothing else |
| `LikePattern.SubstringPatternIsContains` | identity/store/like.go:15-19 | escaped and wrapped in percent signs it matches exactly the texts that contain it |
| `LikePattern.ILikeSubstring` | identity/store/audit_repository.go:220-225 | the e-mail filter is a case-insensitive substring test, for every case folding of one character into one that leaves the metacharacters alone |
| `SqlLiteral.LiteralReadsBack` | identity/internal/pgquote/pgquote.go:51-57 | the lexer reads every NUL-free string's constant back as that string and consumes nothing after it, under either setting of standard_conforming_strings |
| `SqlLiteral.LiteralExactly` | identity/internal/pgquote/pgquote.go:51-57 | the strings with a constant are exactly the NUL-free ones |
| `SqlLiteral.LiteralInjective` | identity/internal/pgquote/pgquote.go:51-57 | no two strings share a constant |
| `PlatformAdmin.RequireAnotherExercisableAdmin` | identity/platformadmin/floor.go:70-98 | the memoised loop gives the floor's verdict and looks nobody up twice |
| `PlatformAdmin.FloorVerdictMeans` | identity/platformadmin/floor.go:70-98 | passes exactly when some grant resolves and every lookup before it was answered; refuses for good exactly when every grant is known to be an orphan; without a resolver nothing passes |
| `PlatformAdmin.RefusalIsExact` | identity/platformadmin/floor.go:41-69 | with every lookup answered, the last-administrator refusal means that nobody else in the carrier exists |
| `PlatformAdmin.RevocationLeavesAdministrator` | identity/platformadmin/floor.go:41-69 | an accepted revocation leaves an administrator who exists |
| `PlatformAdmin.Carrier.GrantAdmin` | identity/platformadmin/platformadmin.go:400-437 | grant and record land together or not at all; refusals come in the code's order; an existing grant keeps its provenance |
| `PlatformAdmin.Carrier.LockCarrier` | identity/platformadmin/platformadmin.go:442-466 | splits the listing into the addressed grant and exactly the others, in order |
| `PlatformAdmin.Carrier.Revoke` | identity/platformadmin/platformadmin.go:495-550 | removal and record land together or not at all, the predicate judging exactly the grants that would remain |
| `PlatformAdmin.AcceptedGrantIsARun` | identity/platformadmin/platformadmin.go:400-437 | an accepted grant is a run of the interleaved protocol that ends in the carrier and trail it left |
| `PlatformAdmin.AcceptedRevokeIsARun` | identity/platformadmin/platformadmin.go:495-550 | so is a revocation the shipped predicate accepts: begin, lock every row in order, resolve, delete, record, commit |
| `CarrierRace.StepKeepsInv` | identity/platformadmin/platformadmin.go:495-550 | locks, snapshots and keepers stay consistent under every interleaved step |
| `CarrierRace.FloorHolds` | identity/platformadmin/platformadmin.go:474-480 | in every interleaving of grants and revocations, once some grant resolves to an existing user some grant does ever after; also with users removed, when removals and revocations run inside Serialize |
| `CarrierRace.RemovalOutsideSerializeBreaksFloor` | identity/platformadmin/platformadmin.go:552-560 | a run of grants and a revocation reaches a state where a removal outside Serialize passes its check and the commit that follows leaves no administrator who exists |
| `CarrierRace.TrailExplainsCarrier` | identity/platformadmin/platformadmin.go:388-393 | every committed change carries its intent: the trail replays to the carrier at every moment |
| `CarrierRace.SomeoneCanMove` | identity/platformadmin/platformadmin.go:258-259 | locking in (granted_at, user_id) order never deadlocks: while anyone is in a transaction, someone is not waiting for a lock |
| `CarrierRace.RevocationCompletes` | identity/platformadmin/platformadmin.go:495-550 | the floor refuses no more than it must: with nobody else about and another grant that resolves, a revocation runs to its commit |
| `CarrierRace.GrantCompletes` | identity/platformadmin/platformadmin.go:400-437 | with nobody else about, a grant to a user who has none runs to its commit |
| `OAuthStore.MemoryStore.PurgeExpired` | identity/auth/oauthstate/memory.go:213-226 | drops exactly the expired entries and counts the rest by namespace |
| `OAuthStore.MemoryStore.EvictNearestExpiryState` | identity/auth/oauthstate/memory.go:263-279 | drops one login state nearest to expiry if there is one, never a marker |
| `OAuthStore.MemoryStore.MakeRoom` | identity/auth/oauthstate/memory.go:232-255 | evicts no more login states than the budget requires, nearest expiry first, and refuses a marker when the marker budget is full |
| `OAuthStore.MemoryStore.PutIfAbsent` | identity/auth/oauthstate/memory.go:108-135 | the new map and error in every case; each namespace stays within its budget |
| `OAuthStore.MemoryStore.Take` | identity/auth/oauthstate/memory.go:139-158 | removes the entry on every hit and returns it only while unexpired |
| `OAuthStore.PutKeepsBounded` | identity/auth/oauthstate/memory.go:232-255 | no put takes a namespace over its budget |
| `OAuthStore.PutKeepsMarkers` | identity/auth/oauthstate/memory.go:228-251 | an unexpired marker survives any put, and a second reservation of it is refused |
| `OAuthState.Manager.Issue` | identity/auth/oauthstate/oauthstate.go:219-248 | one put of the sealed payload under the minted state, or nothing |
| `OAuthState.Manager.Consume` | identity/auth/oauthstate/oauthstate.go:261-297 | takes the state out before any check and judges what it took |
| `OAuthState.Manager.Reserve` | identity/auth/oauthstate/oauthstate.go:323-340 | true only for the caller whose marker was stored; false with every error |
| `OAuthState.RedeemsWhatWasIssued` | identity/auth/oauthstate/oauthstate.go:261-297 | a redemption returns exactly what one earlier Issue stored, for its purpose and before its expiry, and while the state is stored those conditions suffice |
| `OAuthState.RedeemedAtMostOnce` | identity/auth/oauthstate/oauthstate.go:250-260 | once a Consume has found a state, whatever it answered, no later one does |
| `OAuthState.NotReservedAgainBeforeTtl` | identity/auth/oauthstate/oauthstate.go:323-340 | under any load a reserved key is refused as a replay until its ttl has passed |
| `OAuthState.RunStaysBounded` | identity/auth/oauthstate/memory.go:35-59 | neither namespace ever outgrows its budget |
| `FirstLogin.UserRepository.LinkOIDCIdentity` | identity/store/user_repository.go:244-260 | the compare-and-set wins exactly on a row without a subject, and changes nothing otherwise |
| `FirstLogin.UserRepository.GetOrCreateUserFromOIDC` | identity/store/user_repository.go:379-528 | with other sessions acting before any statement, success is the stored row under the subject asked for and no binding is undone; alone, it succeeds exactly for a returning user without an address clash, or a verified one whose address is free or unlinked, and otherwise says which of those failed |
| `FirstLogin.UserRepository.FirstTime` | identity/store/user_repository.go:404-528 | the half without a row under the subject: alone, it succeeds exactly for a verified address that is free or unlinked, and a verified login is never called unverified |
| `FirstLogin.UserRepository.Refresh` | identity/store/user_repository.go:390-401 | writes back the subject it read, which no other login can have changed |
| `FirstLogin.UserRepository.Link` | identity/store/user_repository.go:431-458 | links, or defers to whoever linked first: the answer is read off the row as it ends up |
| `FirstLogin.UserRepository.Create` | identity/store/user_repository.go:475-527 | creates, or returns the concurrent winner whenever its row is there |
| `FirstLogin.BindingEvolves` | identity/store/user_repository.go:231-243 | binding a new, free or same-subject row keeps uniqueness and every earlier binding |
| `FirstLoginRace.StatementKeeps` | identity/store/user_repository.go:379-528 | every statement of every call keeps what the others rely on |
| `FirstLoginRace.RefusalMeans` | identity/store/user_repository.go:379-528 | a statement ends its call in a refusal exactly for what it found: an address taken or linked elsewhere, an unverified first login, a row gone; the loser of a race whose winner is there is not refused |
| `FirstLoginRace.SubjectNeverChanges` | identity/store/user_repository.go:402-408 | in every interleaving a stored subject is never changed or cleared and none is held twice |
| `FirstLoginRace.SuccessIsTheRequestedUser` | identity/store/user_repository.go:379-528 | a successful call returns a row stored at that moment under the requested subject, and that row keeps it |
| `FirstLoginRace.SameSubjectSameAccount` | identity/store/user_repository.go:466-474 | two successful calls for one subject return one account |
| `FirstLoginRace.NewBindingsAreVerified` | identity/store/user_repository.go:372-378 | a login binds an account only on a verified address, to its own subject |
| `OrgCache.Organization.Clone` | identity/store/organization_repository.go:51-65 | equal in value, with no memory in common |
| `OrgCache.OrganizationRepository.TryHit` | identity/store/organization_repository.go:102-111 | a private copy exactly on a fresh hit, and the generation |
| `OrgCache.OrganizationRepository.CommitRefill` | identity/store/organization_repository.go:125-132 | stores a copy of its own if and only if the generation is unchanged |
| `OrgCache.OrganizationRepository.GetDefaultOrganization` | identity/store/organization_repository.go:101-134 | cache, then database; a missing organization is never cached; the result shares no memory with the cache |
| `OrgCacheRace.CachedIsFresherThanInvalidation` | identity/store/organization_repository.go:97-100 | whatever is cached was read after the most recent invalidation |
| `OrgCacheRace.NoHitBeforeTheWrite` | identity/store/organization_repository.go:143-148 | once a write has invalidated, a hit returns a row stored after that write |
| `OrgCacheRace.HitReturnsTheLastWrite` | identity/store/organization_repository.go:143-148 | with no later write it returns exactly what was written |
| `OrgCacheRace.SameGeneration` | identity/store/organization_repository.go:27-34 | equal 64-bit generations mean a whole number of laps, hence no invalidation short of one |
| `SelfPruning.NotifyDedupRepository.ClaimDedup` | identity/store/notify_dedup_repository.go:113-201 | wins exactly on a free key or a claim more than the ttl old; prunes only claims past the grace, at most once per interval whether or not that succeeds, and never on the claim's account |
| `SelfPruning.PrunedRows` | identity/store/notify_dedup_repository.go:185-194 | a self-prune takes only rows past the grace, and all of them when they fit in a batch |
| `SelfPruning.OutlivedClaimIsWonAgain` | identity/store/notify_dedup_repository.go:104-112 | in every run a claim is won exactly where the key is free or its claim is more than the ttl old |
| `SelfPruning.WinsAreApart` | identity/store/notify_dedup_repository.go:104-112 | consecutive wins on a key are more than the later ttl apart whenever that ttl and the clock skew fit in the grace |
| `SelfPruning.RemembersIffItFits` | identity/store/notify_dedup_repository.go:14-28 | over every run, wins with a given ttl come more than the ttl after the win before them if and only if the ttl and the skew fit in the grace |
| `SelfPruning.LongTtlIsForgotten` | identity/store/notify_dedup_repository.go:14-28 | for every grace, skew and ttl with ttl + skew beyond the grace, a run prunes a claim and wins it again within its ttl |
| `SelfPruning.TokenRepository.RevokeToken` | identity/store/token_repository.go:123-215 | an existing revocation keeps its expiry; a failed prune does not fail it; an empty id is refused; the prune takes only revocations expired for longer than the grace, an hour when unset |
| `SelfPruning.TokenRepository.IsTokenRevoked` | identity/store/token_repository.go:227-238 | fails closed on both channels |
| `SelfPruning.RevokedStaysDenied` | identity/store/token_repository.go:23-37 | a revoked token stays denied under any revokes and self-prunes until a prune's clock passes its expiry plus the grace |
| `SelfPruning.FirstExpiryDecides` | identity/store/token_repository.go:127-131 | with two expiries for one token the first on record decides |
| `SelfPruning.PruneSlot.Claim` | identity/store/token_repository.go:149-161 | wins exactly when the slot is due and nobody took it in between |
| `SelfPruning.SlotWinnersApart` | identity/store/notify_dedup_repository.go:139-149 | however loads and swaps interleave, winners on one repository are at least an interval apart |
| `RetentionSweep.NewAuditSweepFilter` | identity/store/audit_sweep.go:105-114 | nil options are skipped and the last one given decides |
| `RetentionSweep.NoSilentExemption` | identity/store/audit_sweep.go:126-149 | the sweep runs without holds exactly when no option was given; an empty name is refused |
| `RetentionSweep.AuditLogs.DeleteAuditLogsBefore` | identity/store/audit_repository.go:350-372 | deletes exactly min(batch, deletable) rows, the oldest; a row that an active hold spans, bounds included, stays, and with room in the batch every other row before the cutoff goes |
| `RetentionSweep.BatchSparesHolds` | identity/store/audit_sweep.go:156-164 | the batch row by row on the hold's own fields: never a spanned row, never one at or after the cutoff, and an unspanned one unless the batch is full of rows no younger |
| `RetentionSweep.TableNamedIff` | identity/store/audit_sweep.go:297-319 | a hold table's name is accepted exactly when, white space around it aside, it is a bare identifier or two joined by a dot |
| `RetentionSweep.ValidIdentifierMeans` | identity/internal/pgquote/identifier.go:47-72 | a bare identifier by its characters: a lower-case letter or underscore, then those, digits and dollar signs, at most 63 |
| `RetentionSweep.SweepsAddUp` | identity/store/audit_repository.go:350-372 | n calls delete n full batches or everything deletable, and nothing else |
| `RetentionSweep.EmptyBatchMeansDone` | identity/store/audit_sweep.go:118-125 | looping until zero terminates, having deleted exactly the unheld rows before the cutoff |
| `RetentionSweep.LateFilterStallsForever` | identity/store/audit_sweep.go:118-125 | filtering after the LIMIT deletes nothing for ever behind a full batch of held rows |
| `RetentionSweep.FrontExists` | identity/store/audit_sweep.go:118-125 | for every batch size one hold makes such a front, with one deletable row behind it |

## Left out

- Numeric escape sequences of the SQL lexer (octal, hexadecimal and Unicode) are refused by the reader in `SqlLiteral`; `Literal` never writes one. Characters are code points and encodings are not modelled.
- LikePattern.ILikeSubstring: a case folding that changes the number of characters of a string is not a `Folding`.
- `AuditedCommit` folds ASCII letters when it compares subjects; the identifiers compared are ASCII.
- Relay.Outbox.Claim: the replacement of metadata that cannot be read back is not modelled; `Enqueue` stores a JSON object or NULL, and both read back.
- OrgScopes.MembershipSqlAgrees: identifiers are compared as texts on both sides, as in `AuditQueries`; text that is no UUID, which makes the statement fail, is not modelled.
- A commit whose reply is lost, so that it took effect and is reported as failed, is not a case of `Relay.DeliverBatch`; the protocol's conservation covers the state it leaves, not the report.
- The shipper, the observers, the backlog alarm, tickers and logging do not appear: nothing decides on them.
- `TableSink` models one delivery at a time; two probes racing to store their plans, which costs a further failed delivery, are left out. The destination's `id` is taken to be unique, its other columns to accept what is written, and the records it holds to stay.
- The rendered trigger text is modelled by what it does, as a predicate on commits; identifier parsing and the emitted SQL are not.
- `AuthorityRuns` takes each reduction and each reconciliation as one step; `ReductionRace` and `ReconcileRace` are where memberships, keys and templates move between their statements.
- In `CarrierRace` a user is removed only with the application's own floor check, as one step under the advisory lock; the check itself belongs to the application.
- Closing the OAuth store, its janitor's scheduling and the entropy of a minted state are not modelled; that a state is minted once is an assumption of `OAuthState`'s runs.
- JSON encoding of envelopes and metadata is a pair of constructors; only failure to encode is kept.
- An administrator changing a user's subject by hand is outside the first-login runs; accounts are provisioned and deleted freely, under ids that are never reused.
- `OrgCacheRace` supposes that no read stays in flight across 2^64 invalidations; `OrgCacheRace.SameGeneration` says what happens otherwise.
- `CleanupExpiredRevocations` deletes at expiry without a grace and is the host's to call; it is not part of `SelfPruning`'s runs.
- Overflow of the int64 nanosecond clock in the prune slot is not modelled.
- `OrgScopeForUser`, the remaining repositories, list accessors, migrations, catalogue probes and schema routing would add only branch reading.
- The scanner around the constant folding (file globbing, syntax trees, table patterns) is left out; so are token encryption, JWT handling, mail, HTTP clients and OIDC, whose substance is in libraries.
