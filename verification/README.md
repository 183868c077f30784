# Dev Dashboard: verified models

Dafny models of the parts of the Dapr dev dashboard whose behaviour spans many calls, and proofs of what
those parts promise over every run or every input. `dafny verify dfyconfig.toml` checks everything.

| file | models |
|---|---|
| `ConnPool.dfy`, `ConnPoolRuns.dfy`, `ConnPoolAnswers.dfy` | the lazy connection pool: `openOrGet`, `evict` and `Close` interleaving around opens that run outside the lock |
| `Paging.dfy`, `WorkflowService.dfy`, `WorkflowShown.dfy`, `StateService.dfy` | cursor paging with filters, and workflow statistics |
| `Pairing.dfy` | pairing start and completion events of a workflow history |
| `JsRecord.dfy`, `YamlEmit.dfy`, `Resiliency.dfy`, `ResiliencyEmit.dfy` | the resiliency builder: JavaScript records with their key order, the reducer, the cleaning pass, and the emitted spec |
| `News.dfy`, `NewsAnswers.dfy` | the stale-while-revalidate news cache, on a clock |
| `Like.dfy`, `StateKeys.dfy`, `StatePattern.dfy`, `Removal.dfy` | LIKE patterns, the `\|\|`-joined keys, and removal by force |
| `Detection.dfy`, `Registry.dfy`, `Reconciler.dfy` | finding stores and resolving their secrets, the store registry, the election, reconcile and delete |
| `Derive.dfy`, `FingerprintElection.dfy` | what is derived from the apps, their fingerprint, and what it settles about the elected store |
| `Lifecycle.dfy` | stopped instances: registry, overlay, dismissing |
| `LogTail.dfy` | following a log file |
| `Basics.dfy`, `Sorting.dfy` | options, results, lists built from lists, a stable sort and the order of strings |

## How the models are built

The concurrent parts are state machines. In `ConnPool` and `News` each lock section, each return of foreign
work, each write outside the lock, each close of a channel and each wake-up is one step, and a run is any
sequence of enabled steps. The classes beside them (`ConnPool.Pool`, `News.Service`) hold the source's
fields; each of their methods is one lock section and is proved to make exactly the state machine's step.
The other objects that the source updates in place are classes too, and each method is proved equal to a
function of the old state; the results are then proved about those functions.

- `ConnPool`: a store is named by the slot whose open produced it. `evict`'s wake-up and its close of the
  store are one step (`DoneFreezesSlot`: nothing can change the slot between them). `Close` may visit the
  slots in any order. `guarded` selects a variant in which the deletes of lines 82 and 97 check that the
  mapped slot is the caller's own.
- `Paging`: the store is a cursor that hands out a fixed sequence of key pages, which may be short or empty;
  any of its tokens may fail to read. The durabletask decoder behind `load`, the namespace resolver and
  `strings.ToLower` are parameters.
- `JsRecord`: a record is the list of its entries in the order `Object.entries` gives, array indices first,
  ascending (OrdinaryOwnPropertyKeys in ECMA-262).
- `Detection`: a `Disk` says which YAML files a walk of each path meets, which components a file holds, and what a
  secret store answers for a reference. Nothing ties the walks of different paths to each other.
- `Reconciler`: a `World` is a disk and the text that a store's address is shown as, which takes in address
  translation and the parsing of connection strings. The calls run one at a time.
- `Lifecycle`: `RecordStop` is only called with instances that are not compose containers, whose key is
  their app id (pkg/discovery/types.go:22-25).
- Strings are sequences of characters; a text with invalid UTF-8 is outside the models.

## What the proofs say about the code

These claims about the code do not hold without a condition. Each condition is proved exact, or a lemma
shows the failure.

- The connection pool can leak a store: after an evict during an open, a new open of the same identity can
  be dropped from the map by the first one's delete (`LeakFromInit`, `StrayOpenCanLeak`). It never leaks when
  no open starts between an evict and the return of the evicted open (`NoOverlapNeverLeaks`), nor when the
  deletes are guarded (`GuardedNeverLeaks`).
- `AppID + "/" + InstanceID` does not separate all instances: two share it exactly when one's app id extends the
  other's, after a slash, by a part of its instance id (`DedupKeyCollidesIff`). The second of the two is then
  neither listed nor counted (`CollidingInstanceIsLost`). A scan or a call shows everything if and only if no row
  with an item repeats an earlier row's dedup key (`ScanIsSelectIff`, `CallShowsAllIff`, `StatsCountsAllIff`), and
  paging if and only if that holds within each call (`PagingIsCompleteIff`); where pages end matters
  (`RepeatedRowDependsOnPages`).
- `InstanceKeyPattern` and `InstanceMetaPattern` interpolate ids raw: they select exactly the instance's, and the
  app's, keys if and only if the ids are free of `%`, `_` and `\` (`InstancePatternExactIffPlain`,
  `MetaPatternExactIffPlain`). Otherwise listings show other apps' instances (`UnderscoreSelectsOtherApps`). With
  bar-free ids a forced removal leaves all other bar-free instances' keys, whatever the store holds, if and only if
  its ids are plain (`SparesOthersIffPlain`), and without backslashes the same goes for what is read of all clean
  instances (`SparesLoadsIffPlain`, `EscapedIdSparesLoads`). It also takes the keys of an instance whose id goes on
  after `||` (`ExtensionIsDeletedToo`).
- The check in pkg/server/state.go:99-108 accepts app ids that end in `|`, and exactly those records are
  listed under other parts than they were stored with (`AcceptedRecordsReadBack`).
- Renaming a policy and renaming it back restores the whole state except in two cases: the intermediate name is
  an array index and the policy was not first, or a component that names it lists its inbound leg first
  (`RenameBackRestoresState`). The dialogs produce neither: they accept no name that starts with a digit and build
  components outbound leg first, so in the builder the state always comes back (`RenameBackRestoresInBuilder`).
- A policy that is blank all through is dropped from the emitted spec while references to it stay; that is the
  only way to emit a dangling reference (`EmittedReferencesResolve`). The circuit breaker dialog lets such a policy
  be saved (`ClearedDialogDangles`).
- Fingerprints tell app lists apart if and only if no item can hold byte 0 or begin with byte 1, for items from any
  set closed under suffixes (`TellsApartIffClean`); for items that are not empty, over any alphabet, if and only if it
  has neither byte (`TellsApartNonEmptyIff`).
- Equal fingerprints do not settle the election, although reconcile is skipped on them (cmd/reconciler.go:590-593).
  Between app lists that have them, the loaded stores agree exactly when the stopped apps' stores do
  (`FingerprintSettlesLoaded`), and the running apps' paths exactly when the other fingerprinted paths do
  (`FingerprintSettlesPaths`): two apps that swap stores get different stores elected
  (`SwappedStoresElectDifferently`), and a config file's directory passes for a resource path
  (`ConfigDirLooksLikePath`). Nor is that enough: stores are detected along the scan paths in app order, and the first
  of equals is elected, so two running apps that swap paths and stores get another store elected under one fingerprint
  (`SwappedPathsElectDifferently`). When all that agrees, the elected store is the same on every disk if and only if
  the scan paths come in the same order (`FingerprintSettlesElection`; without fingerprints, `ElectedAlikeIff`).
- `DeleteStore` re-reads only the entry's own file, with the secret stores found there. It hides the elected store
  exactly when given that store's id while the file reads back with another identity (`DeleteStoreHidesElected`), as
  with two stores in one file (`SharedFileHidesElected`). While the file is unchanged and holds that store alone, it
  stays visible exactly when its address is shown alike; it does so however addresses are shown if and only if no
  connection key is a secret reference or it resolves alike from the file itself (`DeleteOfUnchangedIff`). A secret
  store in another file, the layout of cmd/secret_resolution_integration_test.go:48-65, hides the elected store
  (`SecretInAnotherFile`).
- A log file that does not end in a newline when the tail starts has its unfinished line sent by the backfill and
  the rest of it as another line; only then do the lines sent differ from the file's (`TailSendsFileLinesIff`).

## Model

| member | source | states |
|---|---|---|
| ConnPool.InvStep | cmd/connpool.go:60-161 | every step, guarded or not, keeps the invariant: slot fields fit the phase, at most one owner per slot, and every kept store is owned, closed once, or dropped |
| ConnPoolRuns.ClosedAtMostOnce | cmd/connpool.go:60-161 | in every interleaving each opened store is closed at most once, and each slot's done is closed exactly once, when its call ends |
| ConnPoolRuns.DoneFreezesSlot | cmd/connpool.go:101-112 | once done is closed no step writes any field of the slot |
| ConnPoolRuns.OnlyDroppedStoresLeak | cmd/connpool.go:81-99 | when all calls have returned after Close, an opened store is closed exactly once or was unmapped by another call's delete |
| ConnPoolRuns.GuardedNeverLeaks | cmd/connpool.go:93-106 | with deletes guarded by `current == slot`, every opened store is closed exactly once in all runs |
| ConnPoolRuns.NoOverlapNeverLeaks | cmd/connpool.go:78-99 | the code as it is closes every opened store exactly once in all runs where no open of an identity starts while an evicted open of it is in flight |
| ConnPoolRuns.StrayOpenCanLeak | cmd/connpool.go:82-97 | from every reachable open state with such a stray open, some run ends closed and idle with a store nobody closed |
| ConnPoolRuns.LeakFromInit | cmd/connpool.go:60-137 | a leaking run exists from the empty pool |
| ConnPoolRuns.OneStorePerIdentity | cmd/connpool.go:69-76 | without evict, of two slots of one identity the earlier has failed: at most one open in flight, at most one store ever, and only one slot's callers get an entry |
| ConnPoolRuns.SomeStepEnabled | cmd/connpool.go:115-161 | while any call or open is unfinished some step that starts no new call is enabled |
| ConnPoolRuns.NoCallerWaitsForever | cmd/connpool.go:63-161 | a run without new calls is no longer than the work left in its first state |
| ConnPoolRuns.Drain | cmd/connpool.go:63-161 | from every state of the invariant a run without new calls lets every call return |
| ConnPoolAnswers.WakeAnswers | cmd/connpool.go:69-73 | after any run a waiter that wakes is given its slot's entry and no error if that open was kept, an error and no entry otherwise |
| ConnPoolAnswers.WaiterGetsOutcome | cmd/connpool.go:69-113 | in every run, once all calls have returned, each call that ever waited on a slot has been given that slot's outcome |
| ConnPoolAnswers.OpenOrGetOutcome | cmd/connpool.go:63-113 | whatever runs beside it, an openOrGet is refused after Close, shares the outcome of its identity's slot if there is one, and otherwise opens a slot for that identity |
| ConnPoolAnswers.OpenerGetsOutcome | cmd/connpool.go:78-113 | the opener's own slot holds either its store's entry and no error, or an error and no entry |
| ConnPoolAnswers.OpenedIsKept | cmd/connpool.go:93-113 | in runs without evict, while the pool is open, every opened store is kept, mapped and not closed |
| ConnPoolAnswers.OnlyKeptAreMapped | cmd/connpool.go:78-83 | a failed open is not cached: with all calls returned the map holds kept, unclosed stores only |
| ConnPoolAnswers.EvictedIsClosed | cmd/connpool.go:115-137 | after an evict the identity's slot is never mapped again, and once all calls have returned its store is closed exactly once |
| ConnPoolAnswers.ClosedForGood | cmd/connpool.go:140-160 | after Close the pool stays closed and empty, and each store mapped when it came is closed exactly once |
| ConnPool.Pool.Enter | cmd/connpool.go:63-76 | the first lock section refuses, joins the mapped slot, or maps a new one, and makes exactly that step |
| ConnPool.Pool.Forget | cmd/connpool.go:79-83 | a failed open removes whatever slot its identity maps to |
| ConnPool.Pool.RecheckSlot | cmd/connpool.go:93-99 | reports eviction exactly when the slot is no longer the mapped one |
| ConnPool.Pool.Take | cmd/connpool.go:115-125 | evict takes exactly the slot mapped for the identity |
| ConnPool.Pool.TakeAll | cmd/connpool.go:140-149 | Close takes every mapped slot once; a second Close takes none |
| Paging.FillBounds | pkg/workflow/service.go:165-213 | a filtered call returns fewer than two pages, scans less than a page beyond the cap, and is short only at the end of keys or the cap |
| Paging.FillGathers | pkg/workflow/service.go:172-213 | a call's items are the filter of one consecutive run of pages, and its scan count their size |
| Paging.FollowIsSelect | pkg/workflow/service.go:152-225 | following the tokens over an unchanging store gives the plain filter of all keys |
| Paging.ScanIsSelectIff | pkg/workflow/service.go:184-205 | a scan finds what a plain filter finds if and only if no row with an item repeats an earlier dedup key |
| Paging.PageThroughFollows | pkg/workflow/service.go:172-225 | a client that follows the tokens is shown what the loop-fills gather, whichever service answers |
| Paging.ScanWithinFollow | pkg/workflow/service.go:172-213 | one scan of all keys with one seen set finds no more than paging does, repeats or not |
| Paging.RepeatedRowDependsOnPages | pkg/workflow/service.go:173-213 | a repeated dedup key is shown twice across calls and once within a call |
| WorkflowService.Service.ScanPage | pkg/workflow/service.go:184-205 | the loop over one key page adds exactly what the filter keeps of it |
| WorkflowService.Service.Gather | pkg/workflow/service.go:172-213 | the outer loop gathers what the loop-fill specification gathers, and hands out the token of the page after it |
| WorkflowService.Service.List | pkg/workflow/service.go:152-225 | List returns the gathered items sorted, or the error of the first page that cannot be read |
| WorkflowService.Service.Stats | pkg/workflow/service.go:229-267 | fails exactly without a store or when keys cannot be listed; otherwise every count is the number of counted items of that status and the total their number |
| WorkflowService.PagingIsComplete | pkg/workflow/service.go:152-225 | over a steady store paging yields exactly the matching instances, each once |
| WorkflowService.FilteredCallBounds | pkg/workflow/service.go:147-224 | a filtered List call's items are the sorted filter of the pages it scanned, fewer than two pages of them; it scans less than a page beyond the cap and is short only at the end of keys or the cap |
| WorkflowService.PagingIsCompleteIff | pkg/workflow/service.go:172-225 | paging yields all that a plain filter yields if and only if within no call a row with an item repeats an earlier dedup key |
| WorkflowService.CallShowsAllIff | pkg/workflow/service.go:172-213 | one call shows every instance of the keys it scanned if and only if none repeats an earlier dedup key |
| WorkflowService.StatsCountsAllIff | pkg/workflow/service.go:229-267 | Stats counts every instance if and only if no row with an item repeats an earlier dedup key |
| WorkflowService.ListedNewestFirst | pkg/workflow/service.go:214-224 | every page is sorted newest first |
| WorkflowService.SlashFreeKeysAreDistinct | pkg/workflow/service.go:184-197 | app ids without "/" and one metadata key per instance make all dedup keys of a listing distinct |
| WorkflowService.DedupKeyCollidesIff | pkg/workflow/service.go:193-197 | two different instances share a dedup key exactly when one's app id extends the other's, after a slash, by a part of its instance id |
| WorkflowService.CollidingInstanceIsLost | pkg/workflow/service.go:193-205 | for all colliding ids: of a store with both instances List and Stats give the first alone |
| WorkflowService.StatsAgreesWithList | pkg/workflow/service.go:229-267 | Stats' count of a status is the number of items found by paging List with that status and the same filters |
| WorkflowService.StatsNeverExceedsList | pkg/workflow/service.go:229-267 | whatever repeats, Stats never counts more than paging shows |
| WorkflowService.TotalIsSumOfCounts | pkg/workflow/service.go:263-266 | the total is the sum of the counts over all statuses |
| WorkflowShown.ListShowsOnlyAdmitted | pkg/workflow/service.go:184-205 | whatever fails, List shows only instances that load from a listed key, have no parent unless children are asked for, have a status of the list if there is one, and hold the search text, in lower case, in id or name |
| WorkflowShown.PagingShowsExactlyTheAdmitted | pkg/workflow/service.go:350-373 | over a steady store with distinct instances paging shows exactly those, one for each key |
| WorkflowShown.StatsCountsExactlyTheAdmitted | pkg/workflow/service.go:229-267 | with distinct instances the total and the counts are the numbers of keys whose instance loads and meets the query, its status list ignored, in all and of each status |
| WorkflowShown.ListReads | pkg/workflow/service.go:87-145 | the keys read are those of the app in its own namespace, the service's if it has none, or of all apps; fifty to a page unless asked otherwise |
| StateService.Service.List | pkg/state/service.go:166-233 | List returns the surviving records of the loop-fill, sorted by key, or the error in the code's order |
| StateService.Service.Gather | pkg/state/service.go:176-210 | the loop-fill of List, with the classification of every key it kept |
| StateService.Service.AppIDs | pkg/state/service.go:49-75 | the distinct non-empty prefixes of the surviving keys, strictly ascending |
| StateService.FilteredCallBounds | pkg/state/service.go:176-232 | a call without internal keys shows the sorted filter of the pages it scanned, fewer than two pages of keys; it scans less than a page beyond the cap and is short only at the end of keys or the cap |
| StateService.PagingShowsExactlyTheWantedKeys | pkg/state/service.go:166-233 | over a steady store paging shows exactly the keys with the app prefix and the search text in the rest, and at most one delimiter unless internal keys are asked for, each once |
| StateService.ItemsAreRecords | pkg/state/service.go:212-252 | every item shows a record the store returned for a matched key, with the parts of its own key |
| Pairing.BuildPairIndex | web/src/lib/pairing.ts:35-71 | the pass with stacks computes the declarative bracket matching: domain, roles, partners and durations |
| Pairing.PartnersAreMutual | web/src/lib/pairing.ts:58-59 | partners are mutual, of one id, start before end |
| Pairing.EndIsUnique | web/src/lib/pairing.ts:46-59 | a start matches at most one end |
| Pairing.StartIsUnique | web/src/lib/pairing.ts:46-59 | an end matches at most one start |
| Pairing.PairsNest | web/src/lib/pairing.ts:24-31 | every event of the id strictly between a matched pair is matched strictly inside it |
| Pairing.OrphanIffNoOpenStart | web/src/lib/pairing.ts:49-54 | an end is unmatched exactly when no start of its id is open before it |
| Pairing.DurationIsElapsed | web/src/lib/pairing.ts:55-59 | a matched end shows exactly the milliseconds since its start, if both times parse and do not run backwards, and none otherwise |
| Pairing.IndexedEvents | web/src/lib/pairing.ts:3-47 | exactly the events of the three start and five end types with an id are indexed, in that role, under that id |
| Pairing.DurationsAreNonNegative | web/src/lib/pairing.ts:55-59 | a duration is null or not negative |
| JsRecord.RenameKey | web/src/pages/resiliency-builder/reducer.ts:69-74 | the rebuilding loop computes the renamed record |
| JsRecord.RenamedKeyFresh | web/src/pages/resiliency-builder/reducer.ts:69-74 | renaming to an unused key moves one value, touches no other, and gives the prescribed key order |
| JsRecord.RenamedKeyKeys | web/src/pages/resiliency-builder/reducer.ts:69-74 | after any rename the keys are the old ones with `to` for `from` |
| JsRecord.RenamedKeyClash | web/src/pages/resiliency-builder/reducer.ts:69-74 | renaming onto a used key keeps the value listed later |
| JsRecord.RenameBackRestores | web/src/pages/resiliency-builder/reducer.ts:69-74 | renaming to an unused key and back restores the record, order included, except when a name that is not the first moves to an array index |
| JsRecord.MapValues | web/src/pages/resiliency-builder/reducer.ts:93-102 | mapping keeps keys and order and maps each value |
| JsRecord.NextName | web/src/pages/resiliency-builder/reducer.ts:41-46 | terminates and returns the first free numbered name |
| Resiliency.StepKeepsInv | web/src/pages/resiliency-builder/reducer.ts:121-189 | every action keeps all references resolving and breaker settings only beside a breaker |
| Resiliency.RenameKeepsInv | web/src/pages/resiliency-builder/reducer.ts:141-169 | a rename needs no freshness condition for that |
| Resiliency.NoReferenceDangles | web/src/pages/resiliency-builder/reducer.ts:80-189 | after any actions that save targets with existing policies no reference in apps, actors or either component leg dangles |
| Resiliency.RenamePreservesMeaning | web/src/pages/resiliency-builder/reducer.ts:69-119 | renaming a policy to an unused name leaves every leg resolving to the same policy value, targets in order, and everything else as it was, but that a component naming it then lists its outbound leg first |
| Resiliency.RenameKeepsLeg | web/src/pages/resiliency-builder/reducer.ts:80-91 | one leg keeps its meaning exactly when it did not name the new name |
| Resiliency.RemoveClearsReferences | web/src/pages/resiliency-builder/reducer.ts:80-164 | removing a policy removes it alone and takes exactly its references, and a breaker's settings with them, out of every leg |
| Resiliency.UpsertTouchesOnePolicy | web/src/pages/resiliency-builder/reducer.ts:134-171 | saving a policy sets that one policy and leaves the targets alone |
| Resiliency.AppActionsTouchOneApp | web/src/pages/resiliency-builder/reducer.ts:170-173 | saving or removing an app sets or deletes that app alone: all other apps, their order, and the rest of the state stay |
| Resiliency.ActorActionsTouchOneActor | web/src/pages/resiliency-builder/reducer.ts:174-177 | the same for actors |
| Resiliency.ComponentActionsTouchOneComponent | web/src/pages/resiliency-builder/reducer.ts:178-181 | the same for components |
| Resiliency.FieldActions | web/src/pages/resiliency-builder/reducer.ts:130-186 | name and namespace alone are set; Back undoes Next and stops at the first step |
| Resiliency.RenameBackRestoresState | web/src/pages/resiliency-builder/reducer.ts:69-169 | rename and rename back restore the whole state, key order included, exactly when the name keeps its place in the record and no component that names it lists its inbound leg first |
| Resiliency.ValidNameIsNoIndex | web/src/lib/validation.ts:28-34 | no name that the dialogs accept is an array index |
| Resiliency.DialogSessionsKeepOrder | web/src/pages/resiliency-builder/targetDialogs.tsx:128-133 | in every session of the dialogs all components list their outbound leg first |
| Resiliency.RenameBackRestoresInBuilder | web/src/pages/resiliency-builder/reducer.ts:69-169 | for names the dialogs accept and components they build, rename and rename back always restore the state |
| YamlEmit.RemoveEmptyValues | web/src/lib/yaml-emit.ts:21-41 | the loop that deletes and reassigns keys of its copy computes the recursive cleaning |
| YamlEmit.CleanLeavesNoBlanks | web/src/lib/yaml-emit.ts:9-41 | nothing blank and no empty container is left under an object path |
| YamlEmit.CleanIsIdempotent | web/src/lib/yaml-emit.ts:21-41 | cleaning twice is cleaning once |
| YamlEmit.VanishesIffBlank | web/src/lib/yaml-emit.ts:9-41 | a field cleans away exactly when its value is blank all through |
| YamlEmit.BlankIffNoLeaf | web/src/lib/yaml-emit.ts:14-19 | a value is blank all through exactly when no path of keys reaches a value that is not blank and not an object |
| YamlEmit.LeavesAreKept | web/src/lib/yaml-emit.ts:14-19 | a value that is not blank and not an object is at a path afterwards exactly when it was there before |
| ResiliencyEmit.EmittedRefIsReference | web/src/pages/resiliency-builder/reducer.ts:214-223 | the output holds a reference exactly when the state does and the name is not blank |
| ResiliencyEmit.PolicyIsEmitted | web/src/pages/resiliency-builder/reducer.ts:214-223 | the output holds a policy exactly when the state does and the policy is not blank all through |
| ResiliencyEmit.EmittedReferencesResolve | web/src/pages/resiliency-builder/reducer.ts:214-223 | the output has no dangling reference exactly when no policy in use is blank all through |
| ResiliencyEmit.SessionsEmitNoDanglingRef | web/src/pages/resiliency-builder/reducer.ts:121-223 | the same for the state after any allowed session |
| ResiliencyEmit.BlankBreakerDangles | web/src/lib/yaml-emit.ts:27-37 | any policy that is blank all through leaves a reference to it dangling in the output |
| ResiliencyEmit.ClearedDialogDangles | web/src/pages/resiliency-builder/policyDialogs.tsx:113-122 | so does what the circuit breaker dialog saves when its fields are cleared |
| News.OneFetchAtATime | pkg/news/news.go:98-152 | of two fetches the earlier has ended before the later starts, at least negTTL before, and its channel is closed at most once |
| News.EachChannelClosesOnce | pkg/news/news.go:117-151 | the channel of every fetch, the last one too, is closed exactly once, when refresh is over |
| News.FetchRateIsBounded | pkg/news/news.go:64-96 | a window of length D holds at most 1 + D / negTTL fetch starts |
| News.FailureKeepsLastGood | pkg/news/news.go:135-152 | the cache is the last success's response, and what calls are given never gets older |
| News.WaiterSharesOutcome | pkg/news/news.go:106-111 | a released waiter gets the success it waited for or a newer one |
| News.OnlyColdCallsBlock | pkg/news/news.go:77-130 | in every run the calls that block do so on a fetch before which none succeeded |
| News.InvStep | pkg/news/news.go:82-152 | every step keeps single flight, spacing and the cache invariant |
| News.SomeStepEnabled | pkg/news/news.go:106-151 | while a call has no answer a step other than a cancellation moves it along |
| News.NoCallerWaitsForever | pkg/news/news.go:106-151 | without new calls a run is no longer than the work left, and when it can go no further every call is answered and every channel closed |
| News.Service.Get | pkg/news/news.go:82-130 | the lock section makes the state machine's step; it orders a refresh exactly when nothing runs, nothing is fresh and no failure is recent, and a wait exactly when a fetch runs and nothing was ever fetched |
| News.Service.Record | pkg/news/news.go:138-149 | refresh's lock section; a failure leaves the cached response alone |
| NewsAnswers.GetFetchesIff | pkg/news/news.go:82-130 | after any run a Get starts a fetch if and only if none runs, the last success is at least ttl old, and none has failed since within half the ttl, 30 seconds at most; in the background if and only if some fetch has succeeded |
| NewsAnswers.GetAnswers | pkg/news/news.go:82-130 | it is given the last success's response; before any success it waits for the running fetch, is given the empty response just after a failure, or fetches itself |
| NewsAnswers.StaleIsRefreshed | pkg/news/news.go:85-127 | with nothing running and no failure since the last success, no fetch is started exactly while that success is younger than ttl |
| NewsAnswers.RefreshReturnsLast | pkg/news/news.go:135-152 | refresh returns its own response if it succeeded, and the last success's otherwise |
| NewsAnswers.WokenGetsLast | pkg/news/news.go:106-111 | a released waiter is given the last success's response, the empty one if there is none |
| Like.RawPrefixExactIffPlain | pkg/statestore/keys.go:28-31 | a raw prefix pattern matches exactly the texts with that prefix if and only if the prefix has no special character (or its escapes are broken) |
| StatePattern.EscapeLike | pkg/state/pattern.go:16-26 | the builder loop puts a backslash before each special character |
| StatePattern.MatchesEscaped | pkg/state/pattern.go:16-26 | an escaped fragment matches itself and nothing else |
| StatePattern.ListPatternSelects | pkg/state/pattern.go:34-43 | for all strings the pattern selects exactly the keys of the app whose rest contains the search text literally |
| StateKeys.ParseRecoversIds | pkg/statestore/keys.go:34-60 | parsing an instance key gives back its app and instance id when they hold no bar |
| StateKeys.PrefixesAreDisjoint | pkg/statestore/keys.go:23-26 | a key with the prefixes of two instances is a key of one instance |
| StateKeys.InstancePatternExactIffPlain | pkg/statestore/keys.go:28-31 | the instance pattern selects exactly the instance's keys if and only if namespace, app id and instance id are plain |
| StateKeys.MetaPatternExactIffPlain | pkg/statestore/keys.go:17-21 | the listing pattern selects exactly the app's metadata keys if and only if namespace and app id are plain |
| StateKeys.UnderscoreSelectsOtherApps | pkg/statestore/keys.go:17-21 | for an app id with an underscore it also selects the metadata keys of every app that differs there |
| StateKeys.ClassifyLosesNothing | pkg/state/classify.go:42-60 | for a key with a delimiter, prefix, delimiter and logical key give the key back |
| StateKeys.ClassifyInvertsCompose | pkg/state/classify.go:18-60 | classify undoes ComposeKey exactly when neither part holds the delimiter and the app id does not end in a bar |
| StateKeys.ClassifyKindIff | pkg/state/classify.go:42-60 | a key is an app record exactly without two delimiters, and a workflow's exactly if "dapr.internal." follows the first delimiter and another delimiter that |
| StateKeys.InstanceKeysAreWorkflow | pkg/state/classify.go:42-60 | every key of a workflow instance is taken for a workflow's |
| StateKeys.AcceptedRecordsReadBack | pkg/server/state.go:99-108 | of the accepted records exactly those whose app id ends in a bar are read back under other parts |
| StateKeys.JoinSplit | pkg/state/classify.go:42-60 | joining the segments gives the key |
| Removal.Remover.ForceDelete | pkg/workflow/remove.go:122-141 | succeeds exactly when every selected key can be deleted, then none is left; never touches a key outside the pattern |
| Removal.Remover.Remove | pkg/workflow/remove.go:50-75 | the mechanism chosen, exactly when each mechanism succeeds, and which keys it can have removed |
| Removal.Remover.RemoveMany | pkg/workflow/remove.go:77-90 | one result per target in order; only forced targets' patterns lose keys |
| Removal.SparesOthersIffPlain | pkg/workflow/remove.go:122-141 | for bar-free ids a forced removal leaves the keys of all other bar-free instances in every store if and only if namespace, app id and instance id are plain |
| Removal.SparesLoadsIffPlain | pkg/workflow/remove.go:122-141 | for bar-free ids without backslashes the same of what Load reads of all other instances with clean ids |
| Removal.EscapedIdSparesLoads | pkg/workflow/remove.go:122-141 | with a backslash it fails: an id with an escaped percent sign is not plain, and its removal changes no clean instance |
| Removal.UnderscoreDeletesOthers | pkg/workflow/remove.go:122-141 | a forced removal of an id with an underscore makes every instance that differs only there not found |
| Removal.ExtensionIsDeletedToo | pkg/workflow/remove.go:122-141 | a forced removal makes an instance whose id goes on after the delimiter not found too |
| Removal.ForceDeleteTouchesOneInstance | pkg/workflow/remove.go:122-141 | with clean ids Get then reports not found and every other instance loads unchanged |
| Removal.GetShowsIff | pkg/workflow/service.go:298-312 | Get shows a loaded execution unless it has no history, no name and is pending |
| Registry.IdsSeparate | cmd/registry.go:46-54 | two ids are equal exactly for equal source and key, or for a path spelled like a manual key |
| Registry.IdsStayDistinct | cmd/registry.go:135-262 | from an empty file ids are pairwise distinct and equal entryID of source and key after any operations |
| Registry.KeyedStep | cmd/registry.go:135-262 | every operation keeps entries distinct by source and key with the ids those give |
| Registry.TombstoneStep | cmd/registry.go:135-262 | exactly which operations set and clear the tombstone of a path |
| Registry.TombstoneSurvives | cmd/registry.go:218-245 | a tombstone survives any operations that do not undismiss its path |
| Registry.ConnRegistry.UpsertAuto | cmd/registry.go:135-168 | never overwrites a manual entry, refreshes the auto entry keeping its tombstone, or appends; reports a failed save exactly when it had something to write and could not |
| Registry.ConnRegistry.Add | cmd/registry.go:172-185 | appends a manual entry or reports that the name exists |
| Registry.ConnRegistry.Update | cmd/registry.go:193-217 | replaces the manual entry; reports exactly a missing id, a taken name or a failed save; and returns an id under which the entry is found |
| Registry.ConnRegistry.Delete | cmd/registry.go:223-245 | removes manual and marks auto entries of the id, keeping order; reports a failed save exactly when it had something to write and could not |
| Registry.ConnRegistry.Undismiss | cmd/registry.go:249-264 | clears the first tombstone of the path; reports a failed save exactly when it had something to write and could not |
| Registry.UnwrittenIsUnchanged | cmd/registry.go:135-262 | entries change only in operations that write the file |
| Registry.UpsertedEntries | cmd/registry.go:135-168 | nothing changes under a manual entry; else the path's auto entry takes the detected details, with a new time only if they differ, or one is appended; no other entry changes |
| Registry.AddedEntries | cmd/registry.go:172-185 | a manual entry is appended under the id of its name, unless the name is taken |
| Registry.UpdatedEntries | cmd/registry.go:193-217 | the manual entry of the id is replaced, unless another has the new name; no other entry changes |
| Registry.DeletedEntries | cmd/registry.go:223-245 | manual entries of the id go, auto ones are marked, all others stay as they are |
| Registry.UndismissedEntries | cmd/registry.go:249-264 | the path's tombstone is cleared and nothing else changes |
| Detection.WalkAlong | pkg/statestore/detect.go:51-104 | the loops over paths and files give what each file met holds, every file once, at its first place |
| Detection.SamePlacesSameFiles | pkg/statestore/detect.go:62-74 | paths that first occur in the same order detect the same list, however often they are repeated |
| Detection.ResolveSecrets | pkg/statestore/secrets.go:97-121 | each reference is replaced by what the first secret store of its name answers; exactly the unanswered ones are reported, and leave an inline value alone |
| Detection.ChosenIsFirst | pkg/statestore/secrets.go:105-111 | the secret store used is the first of its name, and none is used only if there is none |
| Reconciler.Elect | cmd/workflow.go:65-116 | the six loops pick the first component of least rank |
| Reconciler.WinnerIsUnique | cmd/workflow.go:65-116 | at most one component is the first of least rank |
| Reconciler.ElectedPrecedence | cmd/workflow.go:47-116 | the elected store is one a running app provides if there is one, else one that is loaded if there is one, among those one for actors if there is one, and the first that remains |
| Reconciler.PathUnderIff | cmd/workflow.go:32-45 | a path lies under others exactly if its normal form is one of theirs or goes on from it after a slash |
| Reconciler.IdentitySeparatesIff | cmd/reconciler.go:119-125 | without bars in names and types, identities are equal exactly for equal name, type and address |
| Reconciler.EntryReadsAs | cmd/reconciler.go:262-284 | a manual entry reads as its own metadata, an auto one as the first component along its path that fits it, or as a bare one |
| Reconciler.ReconcileReveals | cmd/reconciler.go:133-223 | after a reconcile the elected store and every store a running app provides are not dismissed |
| Reconciler.ReconcileHidesNothing | cmd/reconciler.go:133-223 | a reconcile dismisses nothing and keeps ids distinct |
| Reconciler.ReconcileFiles | cmd/reconciler.go:133-160 | every detected store without a manual entry at its path has an auto entry with its details afterwards, the last found of each path |
| Reconciler.DeleteStoreHidesElected | cmd/reconciler.go:422-439 | one DeleteStore dismisses the visible elected store exactly when it is given its id and the file reads back as another |
| Reconciler.SharedFileHidesElected | pkg/statestore/detect.go:75-99 | two stores in one file: the second, elected, is dismissed by deleting its own id |
| Reconciler.ElectedIsNeverDismissed | cmd/reconciler.go:133-439 | over any calls during which the elected store's file reads back, the elected store stays visible |
| Reconciler.ActiveStoreStaysVisible | cmd/reconciler.go:133-439 | from an empty registry, whatever the calls, the active store is never dismissed while its file is unchanged, holds no other store, and resolves its connection secrets by itself |
| Reconciler.DeleteOfUnchangedIff | cmd/reconciler.go:262-439 | with the file unchanged and no other store in it, DeleteStore by its own id leaves the elected store visible exactly when its address is shown alike, and however addresses are shown if and only if no connection key is a secret reference or the file's own secret stores resolve it as elected |
| Reconciler.SameStoreIsAlike | cmd/reconciler.go:140-146 | on one disk they do when no connection key is a reference, or the named secret store is first found in the file and along the scan paths alike |
| Reconciler.SecretElsewhereHidesElected | cmd/reconciler.go:262-284 | a store whose identity reads otherwise from its own file is elected by the first reconcile and hidden by deleting its own id |
| Reconciler.SecretInAnotherFile | cmd/secret_resolution_integration_test.go:48-65 | that run for every SQLite store whose connection string is a secret from a store in another file of the directory |
| Reconciler.Backend.Reconcile | cmd/reconciler.go:133-180 | detects along the scan paths, resolves, upserts, elects, undismisses and publishes the election unless closed, as the specification |
| Reconciler.Backend.DeleteStore | cmd/reconciler.go:422-439 | refuses exactly the component with the elected one's identity, else deletes |
| Reconciler.Backend.UndismissAppProvided | cmd/reconciler.go:209-223 | undismisses exactly the detected stores with a path that a running app provides |
| Derive.EncodeCanBeReadBack | cmd/derive.go:115-131 | a parser reads the four groups back when no item holds byte 0 or begins with byte 1, and returns no other groups |
| Derive.CleanEncodingsDiffer | cmd/derive.go:115-131 | however decoded: clean groups with the same text are the same |
| Derive.TellsApartIffClean | cmd/derive.go:93-131 | for items from any set closed under suffixes: equal fingerprints mean equal multisets for all app lists if and only if no allowed item holds byte 0 or begins with byte 1 |
| Derive.TellsApartNonEmptyIff | cmd/derive.go:93-131 | the same for items that are not empty, over any alphabet: if and only if it has neither byte 0 nor byte 1 |
| Derive.FingerprintsAgree | cmd/derive.go:93-131 | for clean items, equal hashed texts exactly for equal multisets of ids, paths, stores and running ids |
| Derive.AppOrderIsIrrelevant | cmd/derive.go:91-92 | the order of the apps never matters |
| Derive.SeparatorFirstCollides | cmd/derive.go:93-131 | for every item that begins with byte 1, two app lists with different groups and equal fingerprints |
| Derive.NulFirstCollides | cmd/derive.go:93-131 | the same for every item that begins with byte 0 |
| Derive.SwappedStoresLookAlike | cmd/derive.go:93-131 | equal fingerprints with different loaded stores, when an app is stopped |
| Derive.LoadedUnlessAllStopped | cmd/derive.go:27-50 | a store counts as loaded exactly when not all that list it are stopped |
| Derive.FingerprintSettlesLoaded | cmd/derive.go:25-50 | between app lists with equal fingerprints the loaded stores agree exactly when the stopped apps' stores do |
| Derive.FingerprintSettlesPaths | cmd/derive.go:25-50 | and the running apps' paths exactly when the other fingerprinted paths do |
| Derive.AllRunningSettlesLoaded | cmd/derive.go:84-131 | while all apps run the fingerprint settles the loaded stores |
| Derive.ConfigDirLooksLikePath | cmd/derive.go:99-101 | a config file's directory and a resource path give equal fingerprints and different running paths, with every app running |
| FingerprintElection.ElectionSettledIff | cmd/workflow.go:65-116 | two election inputs elect the same store from every list of components Detect can report if and only if they load the same names and, if any, cover the same paths |
| FingerprintElection.ElectedAlikeIff | cmd/reconciler.go:133-166 | two app lists get the same store elected on every disk if and only if their scan paths first occur in the same order and, if there are any, their inputs are alike |
| FingerprintElection.FingerprintSettlesElection | cmd/derive.go:93-131 | app lists with equal fingerprints have equal election inputs exactly when the stopped apps' stores and the other paths agree; then the same store is elected on every disk if and only if the scan paths first occur in the same order, as with an explicit path |
| FingerprintElection.SwappedPathsElectDifferently | cmd/derive.go:52-61 | two running apps that swap paths and stores have one fingerprint, nothing else differs, and each time the first app's store is elected |
| FingerprintElection.SwappedStoresElectDifferently | cmd/derive.go:93-131 | two apps that swap stores have one fingerprint and get different stores elected from one detected list |
| Derive.AppsFingerprint | cmd/derive.go:93-131 | the loops collect, sort and write the encoding of the groups |
| Derive.DerivePaths | cmd/derive.go:25-61 | the scan paths, in order: the explicit one alone, or the home directory's and every app's; the names of the state stores that running apps list, and the paths of running apps |
| Lifecycle.ListedShows | pkg/lifecycle/overlay.go:26-61 | what a List shows, what stays suppressed and what happens to each entry, key by key |
| Lifecycle.ListedInOrder | pkg/lifecycle/overlay.go:54-59 | a List comes sorted by app id, then by key |
| Lifecycle.HiddenList | pkg/lifecycle/overlay.go:43-52 | a dismissed key is shown, and its suppression cleared, exactly when the scan sees it not fully stopped |
| Lifecycle.DismissedUntilAwake | pkg/lifecycle/manager.go:127-140 | after Dismiss that holds through any operations that neither see the key awake nor record a stop of it |
| Lifecycle.ClearedUntilAwake | pkg/lifecycle/manager.go:142-160 | the same for each key ClearInactive clears |
| Lifecycle.ClearedListIsRunning | pkg/lifecycle/manager.go:142-160 | a List right after ClearInactive on the same scan shows nothing fully stopped |
| Lifecycle.ApplyingTwice | pkg/lifecycle/overlay.go:78-107 | applying an entry again to the same instance changes nothing more |
| Lifecycle.AfterDrops | pkg/lifecycle/overlay.go:90-103 | exactly the snapshots whose process lives under another pid are dropped |
| Lifecycle.SnapshotKeptIff | pkg/lifecycle/overlay.go:90-103 | a snapshot of app, sidecar or supervisor is kept exactly while that process does not run under another pid |
| Lifecycle.LiveShows | pkg/lifecycle/overlay.go:85-107 | a live instance's app is shown stopped exactly if it is no container, was stopped here and does not run under another pid; nothing else changes |
| Lifecycle.GhostShows | pkg/lifecycle/overlay.go:116-140 | a ghost's sidecar is shown stopped, and its app too unless it was not stopped here and lives on; the rest is as recorded |
| Lifecycle.RecordedHas | pkg/lifecycle/registry.go:29-43 | recording a stop replaces the instance, adds its snapshots to the earlier ones, and touches no other key |
| Lifecycle.TargetDroppedHas | pkg/lifecycle/registry.go:60-73 | dropping a target takes its snapshot alone, and the entry with its last one |
| Lifecycle.LookupFinds | pkg/lifecycle/registry.go:45-58 | Get finds the entry of the key; failing that, of those with the app id the one with the least key |
| Lifecycle.KeysAscend | pkg/lifecycle/registry.go:117-124 | keys are listed in strictly ascending order |
| Lifecycle.Registry.Get | pkg/lifecycle/registry.go:46-58 | by key, else the first entry of that app id in key order |
| Lifecycle.Registry.List | pkg/lifecycle/registry.go:107-115 | all entries in sorted key order |
| Lifecycle.Overlay.List | pkg/lifecycle/overlay.go:26-61 | the loops over live instances, ghosts and suppressions compute the specification |
| Lifecycle.Overlay.ApplyEntry | pkg/lifecycle/overlay.go:85-107 | drops the stale snapshots and corrects the instance |
| Lifecycle.Manager.Dismiss | pkg/lifecycle/manager.go:131-140 | drops and suppresses the canonical key |
| Lifecycle.Manager.ClearInactive | pkg/lifecycle/manager.go:145-160 | drops and suppresses each fully stopped listed key once and counts them |
| LogTail.SplitIsUnique | pkg/logs/tail.go:87-104 | the split is the only list of newline-free pieces that joins to the text |
| LogTail.TailSendsTheSplit | pkg/logs/tail.go:61-106 | on a growing file the lines sent and the carry are the backfill followed by the split of every byte read after it |
| LogTail.ChunksDoNotMatter | pkg/logs/tail.go:61-106 | two tailers that have read equally far are in the same state whatever their reads |
| LogTail.TailSendsFileLinesIff | pkg/logs/tail.go:28-106 | the lines sent and the carry go on the file's own lines if and only if the file ended a line at the start, or nothing was read after it |
| LogTail.TruncationStartsOver | pkg/logs/tail.go:69-75 | a file seen shorter than the offset is read from its beginning with nothing carried over |
| LogTail.FileLinesAre | pkg/logs/tail.go:28-36 | the lines taken from the file hold no newline and, each ended by one, make up the file |
| LogTail.BackfillIsLast | pkg/logs/tail.go:36-43 | the backfill is the last k of them, or all if there are fewer |
| LogTail.StopsOnFailure | pkg/logs/tail.go:76-84 | the tail stops exactly on a failed read without bytes |
| LogTail.Tailer.Tick | pkg/logs/tail.go:66-106 | one tick updates offset, carry and lines as the specification |
| LogTail.Tailer.constructor | pkg/logs/tail.go:28-43 | the backfill is the last lines of the file without the empty piece after a final newline |

## Left out

- ConnPool.Pool: what runs outside the lock (the open, the closes, the writes to a slot) is only in the state machine.
- Paging.FollowIsSelect: changes to the store while it is paged are not modelled; the source promises nothing then.
- WorkflowService.Service.Stats: Stats lists all keys in one unpaged call, assumed to give the key sequence that paging gives.
- WorkflowService.Service.List: AppIDs and Get's decoding of a workflow history are not modelled beyond what removal needs.
- Resiliency.StepKeepsInv: the order of keys inside one leg, and the record key `__proto__`, are not modelled.
- ResiliencyEmit.EmittedReferencesResolve: the metadata part of the emitted object and the YAML text are not modelled.
- Pairing.BuildPairIndex: Date.parse is a parameter, and the input is any sequence of events, sorted or not.
- News.FetchRateIsBounded: the clock is monotone; how a payload becomes a response is not modelled.
- Removal.Remover.Remove: what a sidecar's terminate and purge do to the store is foreign code.
- Registry.ConnRegistry.UpsertAuto: reading and writing the registry file is a success flag; ids missing in old files and the truncation of the hash are not modelled.
- Reconciler.Backend.Reconcile: pre-warming and evicting pooled connections, and the race of DeleteStore with a reconcile, are not modelled.
- Derive.DerivePaths: its fourth result, the resource paths, is a plain concatenation, and the directories are joined outside.
- Detection.WalkAlong: reading a directory, YAML and secrets files and the environment is the disk's.
- FingerprintElection.ElectionSettledIff: of path normalization it assumes that no path becomes empty and that a name in the root directory stays as it is, as on POSIX systems.
- Lifecycle.Overlay.List: the display fields that a synthesized instance blanks, the copying of snapshots, and Get are not modelled.
- LogTail.Tailer.Tick: cancellation stops the loop at any send; a file replaced by one at least as long as the offset is not noticed by the code and is not covered by the claims.
- pkg/workflow/composite.go: a base row can collide with a sidecar row shown on another page; merging adds little beyond Paging.
- Store backends, HTTP routing, the sidecar protocol, container inspection, and the web interface: foreign code or display.
