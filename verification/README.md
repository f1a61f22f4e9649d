# The tool-execution kernel, modelled and proved

The project models the part of the agent runtime that decides which tool calls run, with what
authority, and what of their results a model gets to see, together with two smaller cores that feed
it. Everything is stated for all inputs, all runs or all reachable states.

- **Resource claims** (`Resources`, `ClaimsProtocol`, `ClaimsManager`): a read/write lock manager over
  path trees with a first-come queue, cancellation racing with grants, and release that may be called
  twice. The protocol is a state machine over all requests ever made; the class `Claims` keeps a ghost
  log of it and is shown to reach only states the protocol reaches. Proved: no two grants share a
  location with one of them writing, one pass of the dispatcher reaches a fixpoint, conflicting
  requests are granted in arrival order, and no waiter starves.
- **Execution budget** (`ExecutionBudget`): the counting sibling of the above.
- **Tool catalog** (`Order`, `Catalog`, `CatalogRuns`, `CatalogLimits`, `CatalogDiff`,
  `CatalogReconcile`, `Registry`, `CatalogInstances`): a versioned registry with sources, aliases, tombstones, revisions,
  incarnation tokens, compare-and-swap on a generation, and loaders that run outside the lock.
  `Catalog` says what each operation may do, `CatalogRuns` proves what holds over every
  interleaving (frozen authority, names never forgotten, one loader per entry), and the class
  `Registry` is proved to do just what `Catalog` says and, with a ghost record of its steps, to reach
  only states such a run reaches.
- **Results** (`Utf8`, `Decimal`, `Excerpts`, `Paging`, `WaterFilling`, `ResultStore`): UTF-8-safe
  excerpts, the search for the longest excerpt a notice has room for, paging by bytes and by lines,
  the shared token pool of a batch, and the store that makes cuts recoverable.
- **Replay** (`ResultCache`, `Batch`, `CacheAgreement`, `Replay`): the cache that replays results within
  a turn, the dispatch of a batch, plain execution of the same calls over a changing workspace, and the
  exact condition under which the two agree.
- **Skills** (`Skills`, `SkillResolver`, `SkillLock`): dependency resolution and lockfiles.
- **Language-server framing and memory** (`Trimming`, `LspFraming`, `MemoryStore`, `MemorySelection`).

`Wrappers` holds the optional value used throughout, `Permutations` the orders in which things are done. Hashes are injective functions (or, where only
that matters, functions), canonical JSON is an opaque byte string, version matching is an
uninterpreted predicate, and counters of 64 bits are naturals. Operating-system effects, clocks and
what tools return are parameters.

## Findings

- Path claims anchored differently (one absolute and one relative, or relative with different numbers
  of leading `..`) are never reported as overlapping even when they name one place.
  `Resources.OverlapIsSharedLocation` gives the exact condition, `Resources.DifferentAnchorsCanBeMissed`
  an instance.
- A bound caller whose resolve has to load the entry gets no executor even when the load succeeds: the
  load itself moves the revision on from the one sampled. `Registry.LoadServesTheUnbound` says exactly who
  is served, over every interleaving, and `Registry.Registry.ResolveLand` keeps to it;
  `CatalogInstances.BoundCallerLoadsInVain` is an instance.
- A refused reconcile leaves the catalog as it was except that tokens may have been used up: exactly when
  the names could be claimed, clash, and one of them needs a new entry
  (`Registry.Registry.ReconcileLocked`; an instance is `CatalogInstances.RefusalSpendsTokens`).
- Replacing or revoking one entry submits all other entries of its source again, and submitting
  normalizes: of them exactly those that do not resubmit as they are get a new token and revision
  (`CatalogDiff.ReplaceSparesTheRest`, `CatalogDiff.RevokeSparesTheRest`, `CatalogDiff.ResubmitsIsFixed`).
  An entry loaded and later out of service does not, nor does one whose loader brought something out of
  service; one whose loader failed cannot be submitted at all, and then nothing of its source can
  (`CatalogInstances.LoadedEntriesMayNotResubmit`).
- The limits on materialized entries can be overrun by an entry that goes out of service while a
  Materialize call is after it (`CatalogInstances.LimitCanBeOverrun`); without that they hold over every
  interleaving (`CatalogLimits.RunStaysWithinLimits`).
- A replayed or copied result can be stale. Only calls of write access count as writing, but files are
  also changed under tree access, as by `file_patch` and `file_apply`, and under read access, as by a
  command that is run. Replay and deduplication agree with plain execution exactly when no such call, of
  which the cache knows nothing, takes effect between a skipped call and where its result was got
  (`Replay.AgreementIsUndisturbed`); so always when whoever may change something asks for write access
  (`Replay.DeclaredIsUndisturbed`). Instances, with their plans, are `Replay.CopyAcrossAChange` and
  `Replay.ReplayAcrossAChange`.
- A result that has to be cut keeps its original exactly when that is valid UTF-8: the store writes JSON,
  in which every byte that is no text is escaped and reads back as another, so a result admitted again is
  rewritten with another digest and size, and stored a second time under another handle
  (`ResultStore.AdmissionIsLossless`, `ResultStore.AdmissionIsIdempotent`, `ResultStore.BatchIsLossless`;
  an instance is `ResultStore.InvalidOriginalIsRewritten`).
- Pinned records rank first only while the pins repeat little: exactly when the last place of an id among
  the pins is no later than the number of different pins (`MemorySelection.PinnedComeFirst`, an instance
  in `MemorySelection.RepeatedPinsPushBack`).
- The limit on resolved skills is not checked when a skill without a manifest is taken in as a root. A
  resolution is within the limit exactly when no such root came up with the list full
  (`Skills.SizeIsLimited`, an instance in `Skills.LocalRootsAreNotCounted`); it always is for the lock and
  for a skill read by name (`Skills.GovernedRootsAreLimited`).
- A duplicate call is copied from its owner before the owner's error is made visible, so it can be
  reported as a success although the owner failed. `CacheAgreement.CopyOfFailure` says exactly when the
  two agree; `CacheAgreement.FailedOwnerIsCopiedAsSuccess` shows it for the plan of one call made twice.
- Of the two accounts kept of a result's size, tokens estimated from runes and bytes divided by four,
  the bytes always decide (`ResultStore.AccountsAgree`).
- Paging by bytes gives back a text exactly when the text is valid UTF-8 and none of its runes is wider
  than a page (`Paging.PagingIsLossless`). Stored text is always valid, so there the width of runes
  decides (`ResultStore.StoredTextIsPaged`); with pages of three bytes reading stops moving before a rune
  of four (`Paging.ThreeByteLimitCanStick`).
- Comparing dependency maps by count and one inclusion confuses an empty constraint with an absent
  name; `SkillLock.EqualDependenciesMeans` says exactly when, `SkillLock.AbsentReadsAsEmpty` is an
  instance. Validated lockfiles hold no empty constraint, so for them the comparison is equality
  (`SkillLock.ComparisonIsEquality`).

## Model

| member | source | states |
|---|---|---|
| Resources.OverlapIsSharedLocation | internal/adapter/tool/tool.go:2033-2070 | two claims overlap, by path or by identifier, exactly when some location is covered by both, provided two path claims are anchored alike |
| Resources.DifferentAnchorsCanBeMissed | internal/adapter/tool/tool.go:2033-2065 | an instance: two relative tree claims that cover one location and are not reported as overlapping |
| Resources.CleanKeepsTarget | internal/adapter/tool/tool.go:2034-2035 | cleaning a path does not change the location it leads to |
| Resources.ConflictSymmetric | internal/adapter/tool/tool.go:2009-2019 | whether two requests conflict does not depend on which comes first |
| Resources.SetsConflict | internal/adapter/tool/tool.go:2009-2019 | the nested loops find a conflict exactly when a pair overlaps with one of the two writing |
| Resources.ConflictMeans | internal/adapter/tool/tool.go:2009-2070 | two requests conflict exactly when a claim of one and a claim of the other cover a common location, anchored alike if both are paths, and one of the two may write; so readers never conflict |
| Resources.WriterClashes | internal/adapter/tool/tool.go:2033-2060 | a writer clashes with whatever claims its own path, if both are of the kinds that lie in the file tree, and otherwise only with its own kind and, without trees, its own identifier |
| Resources.IdContainsMeans | internal/adapter/tool/tool.go:2067-2070 | an identifier holds exactly those that begin with its parts between slashes, and a slash at its end says nothing |
| ClaimsProtocol.StepKeepsInv | internal/adapter/tool/tool.go:1897-1980 | submit, receive, cancel and release keep: live grants never conflict, a live grant never overtook an earlier waiter it conflicts with, identifiers are distinct, every waiter is blocked by a live grant or an earlier waiter |
| ClaimsProtocol.RunKeepsInv | internal/adapter/tool/tool.go:1897-1980 | the same over every run from the empty manager |
| ClaimsProtocol.DispatchSettles | internal/adapter/tool/tool.go:1967-1980 | one pass over the queue reaches a fixpoint: afterwards every waiter is blocked |
| ClaimsProtocol.WaitersImplyLive | internal/adapter/tool/tool.go:1897-1980 | in every reachable state somebody waits only while somebody holds: no wakeup is lost |
| ClaimsProtocol.StepAddsNoBlockers | internal/adapter/tool/tool.go:1897-2007 | no step adds to the requests that stand in a waiter's way |
| ClaimsProtocol.NoStarvation | internal/adapter/tool/tool.go:1897-2007 | once those in a waiter's way at one moment have ended it no longer waits, whatever arrived since |
| ClaimsProtocol.ReleasingBlockersGrants | internal/adapter/tool/tool.go:1940-1980 | releasing, one after the other, everybody who holds what stands in a waiter's way grants the waiter |
| ClaimsProtocol.WaitersAreServed | internal/adapter/tool/tool.go:1897-2007 | from every reachable state a waiter comes to hold its grant by nothing but steps of others who take and release theirs |
| ClaimsProtocol.StepMovesForward | internal/adapter/tool/tool.go:1897-1959 | each request goes through queued, granted, held and ended in that order and stays ended: cancellation racing with a grant and double release neither leak nor revive it |
| ClaimsProtocol.SubmitGrantsOrParks | internal/adapter/tool/tool.go:1897-1914 | a request is granted at once exactly when no live grant and no waiter conflicts with it, and else waits; nobody else is moved |
| ClaimsProtocol.ReceiveHolds | internal/adapter/tool/tool.go:1917-1919 | taking the grant turns granted into held, under the same identifier, and moves nobody else |
| ClaimsProtocol.CancelEnds | internal/adapter/tool/tool.go:1920-1930 | a cancelled waiter is gone at once; one already granted keeps its grant only until it is given back |
| ClaimsProtocol.ReleaseEnds | internal/adapter/tool/tool.go:1945-1959 | after a release of whoever holds or retires with an identifier it is released: the grant is no longer live |
| ClaimsManager.NoSharedWrite | internal/adapter/tool/tool.go:1897-2056 | in every state a run reaches, two live grants anchored alike cover no common location that one of them may write |
| ClaimsManager.Claims.Submit | internal/adapter/tool/tool.go:1897-1914 | the object takes exactly the protocol's submit step: granted at once exactly when neither an active grant nor a waiter conflicts, and otherwise put at the end of the queue |
| ClaimsManager.Claims.DispatchQueue | internal/adapter/tool/tool.go:1967-1980 | the in-place scan of the queue takes exactly the protocol's dispatch |
| ClaimsManager.Claims.ScanActive | internal/adapter/tool/tool.go:1982-1989 | the scan of active grants finds a conflict exactly when there is one |
| ClaimsManager.Claims.ScanEarlierQueued | internal/adapter/tool/tool.go:1991-2007 | the scan of the queue up to an index finds a conflict exactly when there is one |
| ClaimsManager.Claims.Receive | internal/adapter/tool/tool.go:1917-1919 | taking the grant from the channel is the protocol's receive step: the request holds the identifier it was granted |
| ClaimsManager.Claims.Cancel | internal/adapter/tool/tool.go:1920-1930 | cancelling takes the waiter out of the queue and dispatches, or finds that the grant came first, which is then still active; the request is cancelled or retiring |
| ClaimsManager.Claims.ReleaseId | internal/adapter/tool/tool.go:1945-1959 | afterwards the identifier is not active and whoever held it is released, whether it was live or released before; the queue is dispatched, and a second release changes nothing |
| ExecutionBudget.StepKeepsInv | internal/adapter/tool/execution_budget.go:27-89 | every step keeps: leases within capacity, waiters only at capacity, leases granted in arrival order |
| ExecutionBudget.RunKeepsInv | internal/adapter/tool/execution_budget.go:27-89 | the same over every run |
| ExecutionBudget.ReleaseAdvances | internal/adapter/tool/execution_budget.go:73-89 | a release with somebody waiting hands the lease to the first of the queue |
| ExecutionBudget.SubmitLeasesOrParks | internal/adapter/tool/execution_budget.go:27-39 | a caller is given a lease at once exactly when one is free and nobody waits, and else waits |
| ExecutionBudget.CancelEnds | internal/adapter/tool/execution_budget.go:40-53 | a cancelled caller leaves the queue, or gives the lease that came first back to the next in line |
| ExecutionBudget.ReleaseEnds | internal/adapter/tool/execution_budget.go:55-89 | a release ends the lease, whether somebody waits for it or not |
| ExecutionBudget.StepMovesForward | internal/adapter/tool/execution_budget.go:27-80 | each caller's request only moves forward: a cancel racing with a grant neither leaks nor frees twice |
| ExecutionBudget.Budget.Acquire | internal/adapter/tool/execution_budget.go:27-39 | the object takes the protocol's submit step: a lease when one is free, else the end of the queue; the active count is the number of outstanding leases |
| ExecutionBudget.Budget.DispatchQueue | internal/adapter/tool/execution_budget.go:82-89 | the loop hands out exactly the leases the protocol hands out |
| ExecutionBudget.Budget.Cancel | internal/adapter/tool/execution_budget.go:40-53 | the cancelled caller leaves the queue or gives back the lease that came first, and is cancelled |
| ExecutionBudget.Budget.Release | internal/adapter/tool/execution_budget.go:68-80 | the object takes the protocol's release step: the lease ends, the next waiter gets it, and the guard against counting below zero never fires |
| CatalogRuns.StepKeepsInv | internal/adapter/tool/catalog.go:566-788 | every critical section, with loaders interleaved, keeps the catalog invariants and only leads to a later state of it; every method of the registry object is one or a few of these steps |
| CatalogRuns.RunKeepsInv | internal/adapter/tool/catalog.go:691-772 | over every run the alias map is exactly the live tools' aliases, no alias is a name or shared, and tombstones are disjoint from live names |
| CatalogRuns.RunIsLater | internal/adapter/tool/catalog.go:566-788 | over every run generations and tokens never fall, tokens are not reused, and equal generations mean equal catalogs up to loader flags |
| CatalogRuns.SampleNamesOneEntry | internal/adapter/tool/tool.go:704-725 | a sampled binding validates later only against the same entry with the same source, trusted binding and descriptor, even when revoking and adding again restarts revisions |
| CatalogRuns.SampleStaysGood | internal/adapter/tool/tool.go:704-725 | over every run a sampled binding stays valid for as long as the generation stands |
| CatalogRuns.NextRevisionIsUnsampled | internal/adapter/tool/tool.go:704-725 | a binding once good never names a revision later than the one its entry has now |
| CatalogRuns.NamesAreNeverForgotten | internal/adapter/tool/tool.go:580-598 | a name or alias once live is found or known as revoked for ever after, never unknown |
| CatalogRuns.FindKnows | internal/adapter/tool/tool.go:586-598 | looking a name up finds the entry that has it as its name or an alias, exactly when it is live, and a tombstone exactly when it is remembered |
| CatalogRuns.SampledReconcileLosesNothing | internal/adapter/tool/catalog.go:546-557 | a reconcile that names the generation it was computed from commits only if nothing but loader flags changed since |
| CatalogRuns.LoadersAreSolitary | internal/adapter/tool/tool.go:627-701 | at most one loader runs per entry, and one whose entry was replaced or revoked installs nothing |
| CatalogRuns.LandingFindsItsEntry | internal/adapter/tool/tool.go:627-701 | a landing loader changes at most its own entry, which still is the one it set out from, loading, with the descriptor it left with |
| CatalogRuns.LandingInstalls | internal/adapter/tool/tool.go:641-701 | a landing installs the executor and descriptor brought exactly when name, aliases, schema and trusted binding are those frozen at registration and the descriptor is fit; a failed load takes the entry out of service with its reason; anything else only ends the load, and no other entry moves |
| CatalogRuns.RefreshBelieves | internal/adapter/tool/catalog.go:922-959 | of what an executor says of itself only how available it is is taken over, under the next revision, and only if it gives its own name and, out of service, a reason |
| CatalogRuns.RoomMeans | internal/adapter/tool/catalog.go:159-178 | there is room exactly when those materialized or loading leave a place and schema bytes enough |
| CatalogLimits.RunStaysWithinLimits | internal/adapter/tool/catalog.go:94-178 | with limits fixed, nothing arriving already materialized, and the availability of an entry fixed while a Materialize call is after it, materialized or loading entries stay within the entry and schema-byte limits over every interleaving |
| CatalogInstances.LimitCanBeOverrun | internal/adapter/tool/catalog.go:139-156 | an instance: an entry found out of service while a Materialize call is after it is pinned beyond the limit |
| CatalogDiff.Lookup | internal/adapter/tool/catalog.go:426-437 | binary search finds an entry exactly when the catalog has it |
| CatalogDiff.Diff | internal/adapter/tool/catalog.go:455-480 | the difference lists, in name order, what is new, what changed revision or state, and what is gone |
| CatalogDiff.ReconcileReportsTheDiff | internal/adapter/tool/catalog.go:455-480 | a reconcile reports the same changes as a diff of the snapshots around it, save that a revoked entry is given the revision after its last |
| CatalogDiff.ReplaceSparesTheRest | internal/adapter/tool/catalog.go:613-642 | a replace that commits, however other calls interleave between its sample and its commit, gives the entry it names the normal form of what it was given, leaves other sources alone, and of its own other entries replaces exactly those that do not resubmit as they are |
| CatalogDiff.RevokeSparesTheRest | internal/adapter/tool/catalog.go:645-673 | a revoke that commits removes the entry it names and leaves a tombstone, leaves other sources alone, and of its own other entries replaces exactly those that do not resubmit as they are |
| CatalogDiff.ResubmitsIsFixed | internal/adapter/tool/catalog.go:816-850 | normalizing the sample of an entry changes nothing exactly when the entry is still deferred, or materialized and in service, or as its untrusted side describes it |
| CatalogInstances.LoadedEntriesMayNotResubmit | internal/adapter/tool/tool.go:643-690 | an instance of each: a loaded entry, one then out of service, one loaded out of service, and one whose loader failed |
| Catalog.NormalizedIsNormal | internal/adapter/tool/catalog.go:790-875 | what normalization lets through keeps its names, schema, executor, trusted binding and token, has a valid descriptor, is deferred exactly if it has a loader, and else says of itself what its untrusted side says unless it was materialized |
| Catalog.UnfitIsRefused | internal/adapter/tool/catalog.go:790-860 | normalization refuses exactly unfit names, and, without a loader, what says it is deferred or out of service for no reason |
| Registry.FormsAreSubmitted | internal/adapter/tool/catalog.go:524-552 | what a reconcile is asked for under each name is the normal form of what was submitted under it |
| Registry.Registry.SampleForReplace | internal/adapter/tool/catalog.go:613-639 | replace finds the entry exactly when the source owns it, and goes on with all the source has, that one exchanged, at the generation it saw |
| Registry.Registry.SampleForRevoke | internal/adapter/tool/catalog.go:645-669 | revoke finds the entry by name or alias exactly when the source owns it, and goes on with all the rest, at the generation it saw |
| Registry.Registry.SourceState | internal/adapter/tool/catalog.go:517-521 | the generation and, in name order, exactly the source's registrations with their private tokens |
| Registry.SampleIsThere | internal/adapter/tool/catalog.go:878-904 | what a source is shown of an entry says again just what the entry is, executor and private token included |
| CatalogReconcile.BuildAliases | internal/adapter/tool/catalog.go:998-1019 | the alias table is built exactly when no alias is a tool name or shared, and then holds exactly the tools' aliases |
| CatalogReconcile.PlaceNext | internal/adapter/tool/catalog.go:708-753 | one turn of the loop over desired names keeps the entry or makes a new one, with the revision, token, tombstones and change record the catalog rules give it |
| CatalogReconcile.RevokeRest | internal/adapter/tool/catalog.go:755-768 | what is no longer wanted is remembered under its name and aliases and reported in name order |
| CatalogReconcile.Claim | internal/adapter/tool/catalog.go:679-689 | registrations are refused exactly when a name repeats or belongs to another source |
| CatalogReconcile.AgreementIsForeseen | internal/adapter/tool/catalog.go:770-773 | whether the next aliases clash is told by the descriptors that would be live |
| Registry.Registry.RegisterEntry | internal/adapter/tool/catalog.go:566-610 | is a step of a run; refuses exactly when one of its names is live; else under the name is an entry with the executor, trusted binding, descriptor and untrusted side registered, at revision one under a new token, its aliases lead to it, its names are no longer remembered as gone, and everything else is as it was |
| Registry.Registry.ReconcileLocked | internal/adapter/tool/catalog.go:675-788 | is a step of a run; succeeds exactly when no name repeats, none belongs to another source and no aliases would clash; then under each name wanted is what was there, if it already was so, or else an entry with the executor, trusted binding, descriptor and untrusted side submitted, under a new token and the next revision; the source has nothing else, other sources are untouched, what went is remembered, the change lists are exact and the generation rises just when something changed; refused, nothing moves but the token counter, and that exactly when the names could be claimed and one needed a new entry |
| CatalogInstances.RefusalSpendsTokens | internal/adapter/tool/catalog.go:770-773 | an instance of a refusal that uses up a token |
| Registry.Registry.Reconcile | internal/adapter/tool/catalog.go:524-557 | an empty source, something that cannot be normalized, or a stale generation changes nothing; otherwise the normal forms are reconciled as above |
| Registry.Registry.CheckLimit | internal/adapter/tool/catalog.go:159-178 | the loop admits a candidate exactly when count and schema bytes leave room |
| Registry.Registry.RefreshAvailability | internal/adapter/tool/catalog.go:922-959 | an executor moves only its own availability, with a new revision, and is not believed when it names itself otherwise or says nothing valid |
| Registry.Registry.ResolveEnter | internal/adapter/tool/tool.go:580-605 | the start of resolve tells unknown, revoked, stale and found apart as the lookup and the binding demand |
| Registry.Registry.ResolveProceed | internal/adapter/tool/tool.go:606-640 | is a short run of steps; tells exactly when the entry is gone, names itself otherwise, is out of service, is handed out, has no room, or sets a loader out, and for a binding hands out only when nothing at all changed |
| Registry.Registry.ResolveLand | internal/adapter/tool/tool.go:641-701 | is a step of a run; the landing installs what was frozen at registration or nothing, and hands the executor out exactly when the caller for whom the loader set out had no binding, the entry is still there and the load is acceptable |
| Registry.LoadServesTheUnbound | internal/adapter/tool/tool.go:606-701 | over every interleaving a binding good when a loader set out fails when it lands, so a resolve that had to load serves exactly callers without one, for an entry still there and an acceptable load |
| CatalogInstances.BoundCallerLoadsInVain | internal/adapter/tool/tool.go:606-701 | an instance: a sampled deferred entry whose loader succeeds and whose caller is refused |
| Registry.Registry.ResolveAlone | internal/adapter/tool/tool.go:563-701 | a whole resolve that nothing comes in between hands out an executor exactly for an entry in service, sampled as it is or not at all, and loads it first only for a caller without a binding, with room and an acceptable load; the executor is the entry's own, or the one just loaded |
| Registry.RegisterThenResolve | internal/adapter/tool/tool.go:563-640 | an entry just registered with an executor answers, under its name or an alias, with just that executor, exactly when the executor gives its own name and is not out of service |
| Registry.ReconcileThenResolve | internal/adapter/tool/tool.go:563-640 | the same after a reconcile, for every registration submitted with an executor |
| Registry.Registry.MaterializeEnter | internal/adapter/tool/catalog.go:94-131 | is at most one step of a run; tells exactly when the entry is missing, at another revision, deferred, without room, or pinned |
| Registry.Registry.MaterializeFinish | internal/adapter/tool/catalog.go:139-156 | is a step of a run, for an entry that a resolve has handed out or loaded since; pins it exactly when it is still the one that was resolved |
| Utf8.EncodedIsValid | internal/adapter/tool/tool.go:1356-1361 | an encoded text is valid UTF-8 and counts its code points |
| Utf8.ValidIsEncoded | internal/adapter/tool/tool.go:1757-1759 | every valid string is the encoding of some text |
| Utf8.BoundarySplits | internal/adapter/tool/tool.go:1763-1769 | in valid text a cut leaves both sides valid exactly where the byte after it does not continue a rune |
| Utf8.CountJoin | internal/adapter/tool/tool.go:1356-1361 | rune counts of any two byte strings add up where the second does not begin inside a rune |
| Utf8.ScrubIsIdentity | internal/adapter/tool/tool.go:1129-1136 | what the encoder makes of a text is the text itself exactly when it is valid UTF-8 |
| Utf8.ScrubIsValid | internal/adapter/tool/tool.go:1129-1136 | what the encoder makes of any bytes is valid, has as many runes and is no shorter |
| Utf8.WrittenReadsBack | internal/adapter/tool/tool.go:1129-1136 | what is written of any bytes, escapes and all, reads back as what the encoder makes of them |
| Utf8.WrittenAgain | internal/adapter/tool/tool.go:1129-1146 | what was read back is written as it was before exactly when nothing was escaped |
| Excerpts.BoundedSlice | internal/adapter/tool/tool.go:1751-1761 | the excerpt is the longest valid one at the next boundary within the limit, and says whether something follows |
| Excerpts.ValidStart | internal/adapter/tool/tool.go:1763-1769 | the loop finds the first boundary at or after the offset |
| Excerpts.FitNotice | internal/adapter/tool/tool.go:1393-1413 | the binary search returns the notice with the longest valid prefix within the byte limit that fits the token limit, or the empty body when none does |
| Excerpts.FitTailNotice | internal/adapter/tool/tool.go:1415-1439 | the same for the longest suffix that begins at a boundary, on any bytes |
| Excerpts.TailIsLongestValid | internal/adapter/tool/tool.go:1415-1439 | on valid text that suffix is the longest valid one that fits |
| Paging.ReadingReassembles | internal/adapter/tool/tool.go:1700-1704 | following next_offset over valid text to the end gives back the text, from the beginning or from any boundary up to which it was read before |
| Paging.ReadingIsFaithful | internal/adapter/tool/tool.go:1700-1704 | following next_offset from 0 over valid text to the end gives back the text, in valid pages within the limit |
| Paging.PagingIsLossless | internal/adapter/tool/tool.go:1700-1704 | a reading that gives back the text exists exactly when the text is valid and no rune is wider than a page |
| Paging.FourByteLimitSuffices | internal/adapter/tool/tool.go:1700-1704 | four bytes a page are enough for any valid text |
| Paging.ThreeByteLimitCanStick | internal/adapter/tool/tool.go:1700-1704 | an instance: before a rune of four bytes a page of three is empty and promises more for ever |
| Paging.SelectLines | internal/adapter/tool/tool.go:1809-1837 | always valid and within the limit; all the lines asked for and the number of the next exactly when they are valid and fit, else the longest valid part of them and the offset where that ends |
| Paging.LineReadingReassembles | internal/adapter/tool/tool.go:1705-1721 | reading by lines gives back exactly the text up to where it has come, in valid pages within the limit; with nothing left, and only then, that is the whole text, and where a page was cut it is a boundary |
| Paging.LinePagingIsLossless | internal/adapter/tool/tool.go:1705-1721 | a reading by lines that gives back the whole text exists exactly when the text is valid and every page has room for its lines |
| Paging.LinesThenBytesIsLossless | internal/adapter/tool/tool.go:1700-1721 | reading by lines and, after a cut, on by bytes from the offset handed out ends and gives back the whole valid text whenever its runes fit a page |
| Paging.CountLinesCounts | internal/adapter/tool/tool.go:1798-1807 | counting newlines gives the number of lines |
| WaterFilling.Share | internal/adapter/tool/tool.go:1221-1239 | the loop gives each result, in order of size, the share the waterline and the cap allow and takes it off the pool |
| WaterFilling.PoolIsNotExceeded | internal/adapter/tool/tool.go:1183-1239 | the shares add up to at most the pool, or one token for each result |
| WaterFilling.NoWorseThanEqualSplit | internal/adapter/tool/tool.go:1183-1239 | every result gets at least what an equal split would, as far as it can use it |
| WaterFilling.SharesRise | internal/adapter/tool/tool.go:1183-1239 | waterlines and shares never fall along the order of size |
| WaterFilling.CutsSpendThePool | internal/adapter/tool/tool.go:1183-1239 | once a result is cut by the waterline the pool is spent to the last token and all later shares are equal, give or take one |
| WaterFilling.CutsOnlyWhenShort | internal/adapter/tool/tool.go:1183-1239 | a result is cut only when the batch wants more than the pool |
| ResultStore.AccountsAgree | internal/adapter/tool/tool.go:1246-1250 | the two limits checked at admission are the one unit the pool is kept in, and of the two accounts the bytes decide |
| ResultStore.ResultStore.AdmitWithin | internal/adapter/tool/tool.go:1093-1181 | a result admitted tightly enough stays; else its original is shown whole exactly when it fits, and otherwise stored as the JSON written of it, under the handle of that, and shown by the longest excerpt there is room for, or, if the store does not take it, by an excerpt without a handle |
| ResultStore.AdmissionMeans | internal/adapter/tool/tool.go:1093-1181 | in plain numbers: what may be asked for is the capacity of the store when none or more is asked for; a result is shown whole exactly when it has no more bytes than may go inline and than four for each token; else a notice tells the size and the handle over the longest beginning (for a turn history: end) in whole runes for which both limits and the notice leave room, or, if the store does not take it, over the longest beginning within both limits; the receipt gives the sizes, digest, handle and limit |
| ResultStore.TruthfulStays | internal/adapter/tool/tool.go:1363-1391 | a result whose receipt tells the truth is left as it is |
| ResultStore.AdmittedIsTruthful | internal/adapter/tool/tool.go:1093-1181 | of a result just admitted the receipt tells the truth exactly when nothing was cut, or the store took an original that is text and the notice had room |
| ResultStore.OriginalMeans | internal/adapter/tool/tool.go:1104-1127 | a result stands for what is stored exactly when some of it was cut, its handle is known and it is no retrieval |
| ResultStore.AdmissionIsLossless | internal/adapter/tool/tool.go:1104-1181 | for results that are not retrievals the original stays recoverable exactly when it is valid UTF-8 or was not cut, else the text JSON made of it is; nothing stored before is lost |
| ResultStore.AdmissionIsIdempotent | internal/adapter/tool/tool.go:1098-1181 | for results that are not retrievals admitting again under the same limit changes nothing, result or store, exactly when the original is valid UTF-8 or was not cut; else what reads back is stored as well |
| ResultStore.AdmissionSettles | internal/adapter/tool/tool.go:1098-1181 | whatever the original of a result that is not a retrieval, from the second time on admitting again changes nothing |
| ResultStore.InvalidOriginalIsRewritten | internal/adapter/tool/tool.go:1129-1181 | an instance: two bytes that are no text come back as six, the receipt changes with the next admission, and the store then holds both under different handles |
| ResultStore.FailureIsNotSettled | internal/adapter/tool/tool.go:1137-1155 | a result whose original the store did not take is admitted anew each time, its excerpt being all there is |
| ResultStore.StoredTextIsPaged | internal/adapter/tool/tool.go:1700-1704 | stored text can be read back page by page exactly when none of its runes is wider than a page |
| ResultStore.ResultStore.AdmitBatchWithin | internal/adapter/tool/tool.go:1192-1241 | results are admitted once each, in order of size and position, under shares that stay within the pool, give each at least an equal split, never fall, and once one is cut spend the pool evenly to the last token |
| ResultStore.BatchIsLossless | internal/adapter/tool/tool.go:1192-1241 | after a batch a result the store took, not a retrieval, still leads to its original exactly when that is valid UTF-8 or did not have to be cut |
| ResultStore.EqualShareStaysWhole | internal/adapter/tool/tool.go:1183-1239 | a new result no larger than an equal share of the pool and the cap comes out of the batch as it went in, whatever else is in it |
| ResultCache.FingerprintIsInjective | internal/adapter/tool/result_cache.go:185-217 | equal fingerprints mean the same name, binding, arguments and cache revision, for names and catalog ids without a zero byte |
| ResultCache.ResultCache.Plan | internal/adapter/tool/result_cache.go:36-123 | each call is run, taken as already executed, replayed, or copied from the one earlier call that runs with its fingerprint, as eligibility, the cache and other writers decide; replayed failures are counted |
| ResultCache.OtherWriteCounts | internal/adapter/tool/result_cache.go:59-71 | comparing the count of writing calls with the call's own access tells whether another call writes |
| ResultCache.ResultCache.Commit | internal/adapter/tool/result_cache.go:125-152 | with nothing changed each result that ran and may be shown again, by its descriptor or as a failure not worth retrying, is found under its fingerprint, the last of its kind, and what was found before is found still; otherwise everything is forgotten under a new revision |
| ResultCache.FoundOutIsReplayed | internal/adapter/tool/result_cache.go:84-152 | what one batch found out the next does not run again: the same call in a later batch, nothing having changed and nobody else writing, is skipped and shown the same result stamped with the id it was got by |
| ResultCache.DuplicatesAreCopied | internal/adapter/tool/result_cache.go:107-121 | a replayable call made twice in one batch in which nobody else writes runs once: the second is skipped and copied |
| ResultCache.ChangeForgets | internal/adapter/tool/result_cache.go:125-138 | after a change nothing is replayed: only calls run before, or copied within the batch, are skipped |
| ResultCache.RunsAreForeseen | internal/adapter/tool/result_cache.go:68-90 | a call that runs is planned with the policy and replay its descriptor states, under its own fingerprint, and alone if it does not resolve |
| ResultCache.SuppressedAreCounted | internal/adapter/tool/result_cache.go:91-106 | the count of suppressed calls is that of the failures shown again instead of run |
| CacheAgreement.SkipsMeanNoOtherWrite | internal/adapter/tool/result_cache.go:84-121 | replay and copying happen only when every other call of the batch that resolves asks for something else than write access |
| CacheAgreement.CopiesMeanNoWrites | internal/adapter/tool/result_cache.go:107-121 | a call is copied only from the same call, in a batch where none has write access |
| CacheAgreement.PlannedOwnersRun | internal/adapter/tool/result_cache.go:107-121 | in a plan every copied call has an earlier owner that runs |
| Batch.StepKeepsInv | internal/adapter/tool/batch.go:82-97 | every dispatch step keeps counts of starts and finishes and the barriers of serial calls |
| Batch.SerialCallsRunAlone | internal/adapter/tool/batch.go:82-97 | a serial call overlaps no other: what comes before it has finished, what comes after starts later |
| Batch.ConcurrentCallsOverlap | internal/adapter/tool/batch.go:82-97 | concurrent calls need not wait for one another: with nobody but concurrent calls running, the next such call can start |
| Batch.EachCallRunsOnce | internal/adapter/tool/batch.go:82-97 | when a batch is over every call to run started and finished exactly once and no other ever started |
| Batch.BatchesDoNotStick | internal/adapter/tool/batch.go:82-97 | a batch that is not over can always go on |
| Batch.FinishBatch | internal/adapter/tool/batch.go:98-138 | copies carry their owner's result stamped with its source, errors are made visible on their own calls, and the first of them is reported |
| Batch.FinalMeans | internal/adapter/tool/batch.go:98-138 | a call that ran is shown as what it brought, or as what the turn recovered, or as interrupted, or with its failure made visible; one that was skipped as planned, or as its owner came back, stamped; and the batch fails with the first call that failed and was neither recovered nor interrupted |
| Replay.CacheRefinesExecution | internal/adapter/tool/result_cache.go:36-152 | over any sequence of rounds in which no skipped call is disturbed, owners do not fail and changes are reported, every call shows what it would show if every call of every batch were run over the same workspace, and leaves the same workspace |
| Replay.RoundAgrees | internal/adapter/tool/result_cache.go:125-152 | one round shows and does what plain execution would, and what is kept of its admitted results holds in the state it leaves |
| Replay.AgreementIsUndisturbed | internal/adapter/tool/result_cache.go:59-121 | for all tools that are what their descriptors say and whose owners do not fail, a batch agrees with plain execution exactly when no call that may change something, and of which the cache knows nothing, takes effect between a skipped call and where its result was got |
| Replay.DeclaredIsUndisturbed | internal/adapter/tool/result_cache.go:59-121 | so it does, in whatever order its calls take effect, when every call that may change something has write access |
| Replay.CopyAcrossAChange | internal/adapter/tool/result_cache.go:107-121 | an instance: of two reads around a change under tree or read access the second is copied from the first and stale |
| Replay.ReplayAcrossAChange | internal/adapter/tool/result_cache.go:91-106 | an instance: a read after such a change in its batch is replayed from the cache and stale |
| Replay.ChangesArePlanned | internal/adapter/tool/result_cache.go:59-121 | there are such plans |
| CacheAgreement.CopyOfFailure | internal/adapter/tool/batch.go:99-136 | a copy agrees with its owner's report exactly when the owner did not fail or its result already said so |
| CacheAgreement.FailedOwnerIsCopiedAsSuccess | internal/adapter/tool/batch.go:99-136 | an instance: in any plan of one replayable call made twice the second is shown as a success although the first failed |
| CacheAgreement.TwiceIsPlanned | internal/adapter/tool/result_cache.go:84-121 | there is such a plan, from an empty cache |
| SkillResolver.Resolver.Resolve | internal/adapter/skill/resolver.go:151-250 | succeeds exactly when there is a resolution: a list that is duplicate-free, is exactly the dependency closure, has dependencies first, satisfies every constraint, and never overran the limit on going into a governed root; a failure truthfully names its reason, a reported cycle being a real one that can be reached |
| SkillResolver.Resolver.Visit | internal/adapter/skill/resolver.go:166-243 | visiting keeps colours, stack and list in step, ends on every graph, and leaves the skill in the list or tells why not |
| Skills.ResolvedHasNoCycle | internal/adapter/skill/resolver.go:170-181 | where a resolution exists no cycle can be reached |
| Skills.ResolvedIsSound | internal/adapter/skill/resolver.go:151-250 | each skill of a resolution is there and enabled, asked for or needed by a later one; those it depends on come before it at versions its constraints accept, and without a manifest it is a root outside the lock; every root is in it |
| Skills.CheckVersionMeans | internal/adapter/skill/manifest.go:78-91 | a version as it should be written is held against the constraint as it stands, with a v before it or not |
| Skills.NormalizeMeans | internal/adapter/skill/manifest.go:93-99 | a version is read without a leading v and the blanks around it, and an unknown one as a build of no version |
| Skills.FailureMeansUnresolvable | internal/adapter/skill/resolver.go:170-237 | what a failure says rules a resolution out |
| Skills.SizeIsLimited | internal/adapter/skill/resolver.go:200-214 | a resolution has at most as many skills as allowed exactly when no ungoverned root came up with the list full |
| Skills.GovernedRootsAreLimited | internal/adapter/skill/resolver.go:88-136 | so it has at most as many for the lock and for a skill read by name |
| Skills.LocalRootsAreNotCounted | internal/adapter/skill/resolver.go:200-209 | an instance of two ungoverned roots resolved where one is allowed |
| SkillLock.LockfileFor | internal/adapter/skill/resolver.go:327-347 | the lockfile lists the governed skills in name order with what their manifests say |
| SkillLock.ValidateLockfile | internal/adapter/skill/lock.go:151-206 | the two loops accept exactly the lockfiles with valid distinct entries whose dependencies are all present at satisfying versions |
| SkillLock.ValidLockMeans | internal/adapter/skill/lock.go:151-206 | a valid lockfile says of each skill once its name, version, source, digest and dependencies, all well-formed, and provides each dependency at a version the dependent accepts |
| SkillLock.ResolvedLockIsValid | internal/adapter/skill/lock.go:151-206 | the lockfile of any non-empty governed resolution passes validation |
| SkillLock.CompareLockfiles | internal/adapter/skill/resolver.go:349-376 | the comparison accepts exactly equal headers and counts with every wanted entry found |
| SkillLock.ComparisonIsEquality | internal/adapter/skill/resolver.go:349-388 | for distinct names and non-empty constraints that is equality of headers and of the sets of entries |
| SkillLock.EqualDependenciesMeans | internal/adapter/skill/resolver.go:378-388 | counting and one inclusion are equality exactly when no empty constraint stands for an absent name |
| SkillLock.AbsentReadsAsEmpty | internal/adapter/skill/resolver.go:378-388 | an instance of two different maps taken for equal |
| LspFraming.Reader.ReadMessage | internal/adapter/lsp/check.go:430-461 | the reader consumes exactly one message as the header grammar and the limit say |
| LspFraming.StreamRoundTrips | internal/adapter/lsp/check.go:397-461 | any sequence of bodies within 16 MiB each, written as frames, is read back in order whatever bytes they hold |
| LspFraming.LongFrameFails | internal/adapter/lsp/check.go:450-452 | a body over the limit is refused, so the limit is exact |
| LspFraming.OtherHeadersAreSkipped | internal/adapter/lsp/check.go:432-448 | header lines without a colon, or that name something else before it, change nothing |
| LspFraming.LastLengthWins | internal/adapter/lsp/check.go:432-448 | of several length headers the last counts |
| LspFraming.LengthLineIsRead | internal/adapter/lsp/check.go:436-448 | a header line naming the length in any case, with blanks around name and number, counts for its number, and one that holds no number ends the reading |
| LspFraming.CaseIsIgnored | internal/adapter/lsp/check.go:442-443 | header names are equal exactly when they differ at most in the case of letters |
| LspFraming.AtoiMeans | internal/adapter/lsp/check.go:443-446 | a length may carry a sign, is one or more digits, and must fit 64 bits |
| LspFraming.LengthIsRequired | internal/adapter/lsp/check.go:431-452 | headers without a length are refused and leave what follows |
| LspFraming.EndedStreamIsRefused | internal/adapter/lsp/check.go:433-456 | a stream that ends before the length says, or within a header line, is refused and nothing is left of it |
| LspFraming.FrameIsWritten | internal/adapter/lsp/check.go:397-406 | what goes over the wire is the header with the length in digits, two line ends, and the body |
| LspFraming.LengthDecides | internal/adapter/lsp/check.go:450-456 | a message is read exactly when its length is between zero and sixteen megabytes and so many bytes follow, and takes just those |
| Decimal.ParsePrint | internal/adapter/lsp/check.go:404-443 | reading decimal digits gives back the number that was printed |
| Decimal.ParseMeans | internal/adapter/lsp/check.go:443-446 | what parses as a number is one digit or more and nothing else |
| Trimming.TrimMeans | internal/adapter/lsp/check.go:437-443 | what is trimmed off is blank and what is kept neither begins nor ends with a blank |
| Trimming.TrimIs | internal/adapter/lsp/check.go:437-443 | there is only one such way to trim a text |
| Order.LessMeans | internal/adapter/tool/catalog.go:1031-1042 | a name comes before another when it is a shorter beginning of it or smaller where they first differ |
| MemoryStore.Validate | internal/adapter/memory/records.go:606-627 | the loop accepts exactly the files with valid records of distinct identifiers and digests |
| MemoryStore.ValidFileMeans | internal/adapter/memory/records.go:606-662 | a valid file is signed, of schema one, empty at generation zero, and holds records with distinct identifiers and digests, each with text, source, category, times in order and its own digest, and with a scope identity exactly if it is not the user's |
| MemoryStore.Store.Remember | internal/adapter/memory/records.go:106-141 | a note is kept once; the file written has the next generation, one record more, and is valid exactly when the clock runs and the identifier is new |
| MemoryStore.NormalizedIsFiled | internal/adapter/memory/records.go:436-507 | a request is the user's and a fact unless it says otherwise, is filed under the place it names or else the one it comes from, and is refused exactly when that or its text, category or source is unfit |
| MemoryStore.Store.Update | internal/adapter/memory/records.go:182-236 | exactly one visible record is replaced, keeping its identifier and birth; the file written is valid exactly when the clock has not gone back behind it |
| MemoryStore.Store.Forget | internal/adapter/memory/records.go:238-269 | exactly one visible record is dropped and the file written is valid with the next generation |
| MemoryStore.WrittenIsValid | internal/adapter/memory/records.go:552-627 | sorting and signing records gives a valid file exactly when the records are valid and distinct |
| MemorySelection.Search | internal/adapter/memory/records.go:276-381 | every record found is the user's own or filed under the very workspace or repository asked from, has not expired and matches the filters; every such record is found or the answer says truncated; they come in turn by pin, narrower scope, better score, later change and smaller id; and count and rendered bytes stay within what was asked for or the store's own limits |
| MemorySelection.VisibleMeans | internal/adapter/memory/records.go:815-828 | what a store may update or forget is what a query without filters from its own workspace and repository would see, expired or not |
| MemorySelection.PickIsSubsequence | internal/adapter/memory/records.go:361-380 | the selection is a subsequence of the ranked candidates |
| MemorySelection.PickIsBounded | internal/adapter/memory/records.go:361-380 | the selection, rendered line by line, stays within the byte limit and the count |
| MemorySelection.SelectionIsMaximal | internal/adapter/memory/records.go:361-380 | the finished selection is maximal: it has reached the count, or no candidate passed over would fit into it |
| MemorySelection.AheadIsAnOrder | internal/adapter/memory/records.go:340-355 | the ranking is a strict total order of ranks |
| MemorySelection.PinnedComeFirst | internal/adapter/memory/records.go:312-350 | a pinned record ranks before one not pinned exactly when its last place among the pins is no later than their number, so always if none is repeated |
| MemorySelection.RepeatedPinsPushBack | internal/adapter/memory/records.go:312-350 | an instance of a pinned record behind one not pinned |
| MemorySelection.SelectBlock | internal/adapter/memory/records.go:401-434 | the longest prefix of the selection whose whole rendering is in a block within the limit, and the block is never over it |
| MemorySelection.BlockHoldsEachRecord | internal/adapter/memory/records.go:413-420 | every selected record is in the block whole |
| MemorySelection.RenderedInLines | internal/adapter/memory/records.go:721-743 | records that render without a line feed can be told apart again, line by line and in order |
| MemorySelection.BlockMeans | internal/adapter/memory/records.go:745-769 | a block is empty exactly when there is nothing to say or no room; else it is the escaped text, or the longest beginning of it that has room and cuts no rune, between its header and footer |
| MemorySelection.WholeSelectionIsShown | internal/adapter/memory/records.go:401-434 | a selection that fits the limit asked for, or else the store's, is not shortened |
| MemorySelection.WholeBlockIsAccepted | internal/adapter/memory/records.go:413-420 | nothing is dropped when everything fits |
| MemorySelection.EscapedHasNoTags | internal/adapter/memory/records.go:771-775 | nothing in a record can open or close the tag around the block |
| MemorySelection.MarksAreWritten | internal/adapter/memory/records.go:757-775 | the three marks are written as their entities and a block is closed by the tag that opened it |
| MemorySelection.UnescapeEscape | internal/adapter/memory/records.go:771-775 | escaping loses nothing |

## Left out

- Operating-system and network work: processes, sandboxes, transports, files and locks on them; saving a file is one atomic step that succeeds or changes nothing.
- Mutexes, condition variables and channels: each critical section is one atomic step, a channel is a flag that is set once.
- The order inside one normalized claim request: it is deduplicated and stripped of empty kinds, but left in the given order, on which nothing depends.
- Symbolic links and case-insensitive file systems in path claims: locations are component sequences.
- Registration normalization: an executor's own descriptor stands in its registration, and the untrusted side and the trusted binding of an entry are taken to agree with its descriptor in everything but availability and deferral.
- Waiting for a running loader in resolve: it is modelled by the caller entering the second half only when no loader runs.
- Catalog digests, presentation of descriptors, and cloning: fields without behaviour.
- CatalogLimits.RunStaysWithinLimits: does not cover an entry whose availability changes while a Materialize call is after it, because the last critical section of that call sets the state without asking for room again; `CatalogInstances.LimitCanBeOverrun` shows it.
- Receipts' kinds and reasons, execution receipts, outcomes and metadata of results: carried along as one opaque value.
- JSON encoding of what a stored result holds besides its text: it is one opaque value that comes back unchanged. Of the text the encoding is modelled as far as it changes it.
- Expiry and eviction of stored results: what the store has taken it keeps.
- Surface pruning, summaries and query-mode retrieval; a line cut in query mode may not match again on the next page, so no reconstruction holds there.
- ResultCache.ResultCache.Plan: resolves each call the same way in both of its passes, because resolving is a parameter of the plan.
- ResultCache.FingerprintIsInjective: is stated for names and catalog ids without a zero byte, because the fields are separated by zero bytes.
- Replay.CacheRefinesExecution: assumes that tools are what their descriptors say (those declared replayable, or to read only, change nothing, and replayable ones show the same in the same workspace; so do failures not worth retrying), that a change is reported in some result of its batch, and that admission keeps what a result leads to.
- Calls of a batch that run at the same time: each takes effect at one moment, in some order, which is the same with the cache and without it.
- Panics in a tool call: they are an error like any other.
- Version matching, name and digest patterns: uninterpreted predicates, of which only is assumed that strict versions begin with a digit and end in no blank.
- Cancellation of a resolution, reading of skill files, and the enabled state (a set of disabled names).
- White space other than ASCII around header fields and prompt bodies.
- JSON decoding of a message body: the reader is modelled up to the bytes of the body.
- Ranking by lexical terms: the score of a record is a parameter, and sorting is a stable insertion; text normalization and credential detection are one uninterpreted function.
- The size of an encoded memory file: whether it is too large is an uninterpreted predicate of the file.
- Configuration, provenance, model routes, protocol types, the web front end, generators and transports: many fields or plain plumbing, which would only add easy members.
