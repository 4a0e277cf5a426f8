# Casals: a model of the conductor and its tools, with proofs

Casals is a conductor that runs on the Internet Computer and builds, serves, upgrades and follows groups of
canisters, with a command line and a web interface beside it. This project models the parts of it where many
things can happen in many orders, or where a short algorithm has a long argument behind it, and proves what those
parts are for. `dafny verify dfyconfig.toml` checks all of it.

What is in the modules:

- `Rounds`, `RoundRuns`: the round scheduler as a state machine over calls, timers, resumed rounds, traps, timers the
  platform drops and upgrades; safety, no lost work, harmless stale rounds and order of service over every run.
- `Up`, `BuildRows`, `GrantRows`, `UpRuns`, `GrantPass`, `UpEnds`: the build of an orchestra in rounds; what a round leaves
  row by row; the barrier between creating canisters
  and building stands, what "built" guarantees over every run and exactly which operations keep it, and termination by
  a lexicographic measure, with exactly the variables it needs.
- `Content`, `ContentRuns`: the batched sync of a frontend against the asset canister's create/delete contract, and
  convergence on the wanted files.
- `Grants`, `GrantRules`, `GrantRuns`: scoped permissions; who may do what and what it leaves of the rows, exactly when no
  run of delegations, removals and claims gives a coalition more than it held, and when a rename keeps everybody's keys.
- `Upgrade`, `UpgradeRuns`, `UpgradeRows`: the group upgrade, all or nothing, the pruning of snapshots, and what a target's
  row says afterwards.
- `Batons`, `BatonRuns`, `BatonRows`: replaying a baton's log from a cursor, and what each action does to the rows.
- `Tables`, `Paging`, `Export`, `Index`, `IndexRuns`: tables with gaps in their ids, reads in pages, an export split by
  page and merged, and lookups that agree with a scan at every stage of an index backfill.
- `Store`, `Publish`, `PublishRuns`: chunked upload and download, and publishing a bundle by its difference.
- `Chunks`, `Wildcard`, `Glob`, `GlobLaws`, `GlobBraces`, `Charts`, `Leb`: the chunk split of the editor, two matchers, the cycles
  charts, and the WebAssembly encoder of the sweeper.
- `Options`, `Octets`, `Order`, `Filters`: what the others share; `Filters.IsFilter` says what it is to keep some of a
  list, by the places that are kept.

How a component is written follows its source. Code that changes things step by step is a class or a method with a
loop, proved equal to a function of the state before it (`KickStep`, `SyncStep`, `BuildAll`, `UpgradeStep` and so on),
and the results are lemmas about those functions and about runs of them. For each of them there is a lemma that tells the
new state part by part, without naming the function's own parts: which rows, keys, entries and places hold what. Code made
of expressions is functions.
SHA-256, the resolution of `$` names, the outcome of a platform call, a query's verdict and the asset canister's answer
to a create of what exists are parameters, so every result holds whatever they do.

## Where the code does less than its documentation says

Each of these has its exact condition, for all inputs, and where a lemma is named for one, an input that fails.

- No coalition gains a key by delegating, if and only if no existing scope's text followed by `|` begins another
  existing scope's (`GrantRuns.DelegationIsSafeIff`): a row is found by its scope and principal joined by a bar, and
  nothing keeps a bar out of a name. With stands `a` and `a|b` one `grant_set` at the first writes a row of the second
  (`GrantRuns.CollidingScopesAmplify`, `GrantRuns.BarInAName`).
- A rename keeps every principal's keys, in every table of grants at existing scopes, if and only if the new scope's
  text is clear of every existing one's in the same sense (`GrantRuns.RenameIsSafeIff`,
  `GrantRuns.UnclearNameLosesKeys`); a grant left over at the new name is gained unless it is overwritten or already
  held (`GrantRuns.RenameKeepsKeys`, `GrantRuns.LeftoverIsGained`).
- From every table of grants `up` ends, if and only if every chain of resolutions ends
  (`UpEnds.EndsFromEveryTableIff`): two variables that name each other keep it going for ever
  (`UpEnds.CyclicVariablesNeverEnd`). It leaves every principal of every table resolved if and only if resolving twice
  is resolving once (`UpEnds.ResolvesEveryTableIff`). Both are about all tables: a particular table can fare better.
- When a watchdog fails a round, it is its own if and only if no round of the job was started after it in the same
  second (`RoundRuns.WatchdogFailsItsOwnIff`, `RoundRuns.WatchdogFailsAnother`).
- A stand marked built has every row its template asks for, and none still created or installed, as long as operations
  on templates, stands and canisters spare the built stands, and each of them keeps it so if and only if it does
  (`UpRuns.StepKeepsInvIff`). A template edit does not rebuild the stands of its section: one that asks for a new row
  leaves them built without it (`UpRuns.TemplateEditIsNotBuilt`).
- An asset that exists without content is not listed, so `sync` creates it again. Whether the asset canister refuses
  that is not settled in the repository: casals_cli/wasm_store.py:347-348 raises, frontend/src/lib/wasmStoreClient.ts:134
  calls it idempotent. The answer is a parameter: a deploy ends exactly when no wanted file has such an asset that is
  refused (`ContentRuns.DeployEndsIff`, `ContentRuns.DeployEndsByAnswer`). A file that changed in the store after the
  listing leaves one behind (`ContentRuns.StaleListingHalfWrites`).
- Two syncs replay all of a baton's completed actions if and only if what is left after the first is all later than its
  cursor (`BatonRuns.OutOfOrderIsLost`); what is left out is lost to a canister if and only if it would have changed its
  row where it belongs (`BatonRuns.LateRowsIff`), which can leave it on its old module
  (`BatonRuns.LateCompletionIsLost`).
  A baton without pages hides what is past its newest 100 (`BatonRuns.UnpagedSeesAllIff`).
- Publishing makes a namespace "exactly" the bundle if and only if every path to write or delete is spelt by its key,
  without outer blanks or a leading slash (`PublishRuns.PublishIsExactIff`). A bundle may hold the first
  (`PublishRuns.BlankIsLost`); its own check rejects the second, which only a key stored by other means can show
  (`PublishRuns.DoubleSlashStays`).
- A balanced glob with nested braces expands without a stray brace if and only if no pair with another opened inside it
  has a comma before its first closing brace (`GlobBraces.NestingLeaksIff`, `Glob.NestedBracesLeak`).
- A lookup of a field's default finds nothing once the field's index is complete (`IndexRuns.DefaultsAreNotListed`).

## Model

| member | source | states |
|---|---|---|
| Rounds.Scheduler.Schedule | src/rounds.py:18-21 | queues a job once and kicks: the whole new state as a function of the old one |
| Rounds.Scheduler.Kick | src/rounds.py:24-37 | the mutual recursion of kick and watchdog ends in one closed form: every overdue round failed in order, a lost timer forgotten, a timer armed when work waits |
| Rounds.Scheduler.Watchdog | src/rounds.py:61-69 | only the entry with this job and this token is failed |
| Rounds.Scheduler.Tick | src/rounds.py:40-50 | starts the head of the queue unless a round runs, with a token and a watchdog |
| Rounds.Scheduler.End | src/rounds.py:51-58 | requeues, completes or fails, clears only its own entry, and kicks |
| Rounds.Scheduler.Resume | src/rounds.py:72-76 | schedules every pending job of every step |
| Rounds.ScheduleLeaves | src/rounds.py:18-21 | a job goes to the end of the queue unless it is there, is noted, and there is a kick |
| Rounds.KickLeaves | src/rounds.py:24-37 | the rounds started more than 900 seconds ago are reported failed, in order, and exactly the others still run; a timer set at most 300 seconds ago stays, else one is armed if work waits and nothing runs; nothing else changes |
| Rounds.TickLeaves | src/rounds.py:40-50 | the head of the queue starts with its watchdog unless there is none or a round runs; the timer is gone |
| Rounds.EndLeaves | src/rounds.py:51-58 | only an unfinished round queues its job again, once; a finished or raised one is reported so; the entry of its job and token goes |
| Rounds.WatchdogLeaves | src/rounds.py:61-69 | nothing if its entry is gone, else that entry is reported failed and goes |
| Rounds.WatchdogOnce | src/rounds.py:24-69 | failing one overdue round and kicking again gives the same state as the kick that found it: the recursion adds nothing |
| Rounds.KickTwice | src/rounds.py:24-37 | a second kick at the same time changes nothing |
| RoundRuns.StepKeepsInv | src/rounds.py:18-76 | every event, in any state of the invariant, keeps it |
| RoundRuns.RunsKeepInv | src/rounds.py:18-76 | the invariant over every run |
| RoundRuns.SchedulerSafety | src/rounds.py:18-76 | in every reachable state: no duplicates queued, at most one armed and one running, never both, and queued work has one of them |
| RoundRuns.UpgradeResumes | src/main.py:46 | an upgrade, which empties the heap and takes the timers and suspended rounds with it, leaves exactly the jobs that rows still call for, each queued once, with a timer armed |
| RoundRuns.UpgradeKeepsOrder | src/rounds.py:72-76 | they are queued in the order in which the steps name them |
| RoundRuns.LogGrows | src/rounds.py:18-76 | no event takes back what was noted, and an upgrade notes which jobs the rows called for |
| RoundRuns.NoWorkLost | src/rounds.py:18-76 | whatever was scheduled is queued, running, completed or reported failed after it was scheduled, over runs with upgrades too, unless at an upgrade no row called for it any more |
| RoundRuns.StaleRoundIsHarmless | src/rounds.py:43-58 | a round that outlived its watchdog never clears the entry of the round that runs now |
| RoundRuns.WatchdogFailsItsOwnIff | src/rounds.py:46-69 | when a watchdog fails a round, it is the one it was set for if and only if no round of that job was started after it in the same second |
| RoundRuns.WatchdogFailsAnother | src/rounds.py:24-69 | a run in which it is not: a job started twice in one second by a timer presumed lost |
| RoundRuns.KickClearsOverdue | src/rounds.py:24-37 | after any kick no running entry is older than WATCHDOG and no armed timer older than LOST |
| RoundRuns.OneCallRecovers | src/rounds.py:24-37 | after a lost timer or a trapped round, one later call is enough for queued work to have a live timer |
| RoundRuns.ServedInOrder | src/rounds.py:18-58 | over any run between two upgrades the jobs started since then, followed by the queue, begin with the queue as it was |
| RoundRuns.ResumeQueuesAll | src/rounds.py:72-76 | after a resume every pending job is queued, and nothing queued is dropped |
| Grants.Conductor.Upsert | src/grants.py:18-20 | the row under the joined key, which keeps the scope and principal it was made with, or a new one |
| Grants.Conductor.GrantSet | src/grants.py:51-63 | refuses exactly what the delegation rules refuse, else writes the row that the joined key finds |
| Grants.Conductor.GrantRemove | src/grants.py:67-73 | refuses, or drops exactly the row that the joined key finds: the key is gone and every other holds what it held |
| Grants.Conductor.GrantClaim | src/grants.py:77-96 | limits wrong codes per caller, and joins every slot of the code, in stored order, to the row under the claimant's key at its scope |
| GrantRules.SetIsDoneIff | src/auth.py:103-111 | a grant is set if and only if a controller does it, or one who is signed in, holds `grant.assign` at or above the scope, does not edit their own grant, covers the new keys and those the row has, and makes the calls themselves; for a scope and keys that exist |
| GrantRules.RemoveIsDoneIff | src/grants.py:67-73 | the same for a removal, and there is such a row |
| GrantRules.SetLeaves | src/grants.py:51-63 | the row under the joined key has exactly the keys and calls given, and no other row changes; nothing does if it is refused |
| GrantRules.RemoveLeaves | src/grants.py:67-73 | the row under the joined key is gone, and no other row changes; nothing does if it is refused |
| GrantRules.RemovedKeysAreGone | src/grants.py:67-73 | each principal then has at each scope exactly the keys and calls that the other rows give it |
| GrantRules.TooManyIff | src/grants.py:77-86 | a claim is refused for too many wrong codes exactly when five of the claimant's are less than an hour old; what each of its answers needs, and what a wrong code is added to |
| GrantRules.FiveWrongCodes | src/grants.py:77-86 | after five wrong codes within an hour the next claim is refused, whatever it presents |
| GrantRules.ClaimLeaves | src/grants.py:77-96 | a wrong code is noted for the claimant, others' notes stay unless there are too many, and a right one forgets the claimant's |
| GrantRules.RenameIsDoneIff | src/stands.py:69-74 | a rename is refused exactly where the place is missing or the name taken |
| GrantRules.RenameLeaves | src/stands.py:69-74 | the old name is gone, the new one is there, stands stay in their sections, and no other place changes |
| Grants.Conductor.Rescope | src/grants.py:23-28 | every grant at the old scope, in stored order, over the row that its new key finds |
| Grants.Conductor.Rename | src/stands.py:69-74 | refuses a taken name, else moves the grants and the scope |
| Grants.ParseText | src/auth.py:38-47 | a scope's text is read back as the scope |
| GrantRuns.SameKey | src/grants.py:19 | two pairs join to one key only if they are equal or one scope and a bar begin the other |
| GrantRuns.ClaimedAt | src/grants.py:90-95 | what a claim leaves a principal at each scope |
| GrantRuns.SlotsLand | src/grants.py:90-95 | where no two scopes collide, every slot lands on the claimant's own row |
| GrantRuns.DelegationNeverAmplifies | src/auth.py:38-64 | over any run of sets, removals and claims by a coalition of non-controllers, what it holds at every scope was covered by what it held at the start, slots with known codes counted, where no existing scope and a bar begin another |
| GrantRuns.DelegationIsSafeIff | src/auth.py:103-111 | that holds of every table of grants, every coalition and every run if and only if no existing scope and a bar begin another |
| GrantRuns.CollidingScopesAmplify | src/grants.py:51-63 | where one does, a single grant gives a coalition a key at a scope where it held none |
| GrantRuns.BarInAName | src/stands.py:101-112 | two stands, `a` and `a|b`, are such scopes |
| GrantRuns.OnlyCoveredRowsChange | src/auth.py:103-111 | a row of somebody else changes only when its permissions were covered by the actor's own where it acted, which is the row's own scope where none collide; a claim changes only the claimant's and the slots' |
| GrantRuns.ClaimMovesTheSlots | src/grants.py:77-96 | a claim adds exactly the keys and calls of the slots that land to the claimant, changes no other caller's, and leaves the code without slots |
| GrantRuns.MovedAt | src/grants.py:23-28 | what each principal has at each scope once a scope's grants are moved |
| GrantRuns.KeysAfterRename | src/stands.py:69-74 | a principal's keys after a rename are the old ones and those of a grant left over at the new name, where no moved grant finds a row of another scope |
| GrantRuns.RenameKeepsKeys | src/stands.py:69-74 | there, a rename keeps all keys if and only if each left-over grant is overwritten or already held |
| GrantRuns.LeftoverIsGained | src/stands.py:69-74 | a grant left over at the new name that is gained |
| GrantRuns.RenameIsSafeIff | src/stands.py:69-74 | a rename keeps every principal's keys in every table of grants at existing scopes, in any stored order, if and only if the new scope and any existing one do not begin each other with a bar between |
| GrantRuns.UnclearNameLosesKeys | src/grants.py:23-28 | where they do, some table loses a principal its keys |
| GrantRuns.RenameToClearName | src/stands.py:69-74 | a rename to a name clear of every existing scope keeps every principal's keys at every scope |
| GrantRuns.RenameToFreshName | src/stands.py:69-74 | so does one to a name without grants, where no moved grant finds a row of another scope |
| Content.AssetCanister.SetAssetContent | src/store.py:156-157 | joins the chunks in order and refuses content without the declared hash |
| Content.Conductor.Upload | src/store.py:151-153 | the chunks sent for a file join to the file, also when it is empty |
| Content.Conductor.Put | src/store.py:150-157 | delete, create and set of one file, and where it stops when a call fails |
| Content.Conductor.ToWrite | src/content.py:63-66 | the wanted keys whose hash or properties differ, in key order |
| Content.Conductor.PutFiles | src/store.py:145-157 | one batch, in order, stopping at the first failure |
| Content.Conductor.DeleteFiles | src/store.py:158-159 | the deleted keys are gone and only they |
| Content.Conductor.Sync | src/content.py:57-80 | one round against the asset canister's API, with the properties remembered |
| ContentRuns.SyncFailsOnBlocked | src/content.py:64-75 | with readable, unchanged files a round fails if and only if its batch meets an asset without content that the canister refuses to create again |
| ContentRuns.FailureIsSticky | src/content.py:64-75 | a failed round leaves such an asset as it was, everything listed still listed, and forgets nothing |
| ContentRuns.RetryFailsToo | src/content.py:95-99 | a round that failed this way fails again |
| ContentRuns.StaleListingHalfWrites | src/content.py:48-54 | the first file of a batch to have changed after the listing is created and left without content |
| ContentRuns.SyncAt | src/content.py:68-80 | what one round leaves at each single key: wanted files of the batch, deletions only in the final round, never of a wanted file |
| ContentRuns.SyncLeaves | src/content.py:57-80 | a round that succeeds leaves at each key of its batch the rendered text where the file has one, else the store's bytes, with the wanted type and properties where the asset is made anew; unwanted listed files go in the last round only; nothing else changes |
| ContentRuns.UnreadableFails | src/content.py:68-71 | a batch with a file that cannot be read fails before anything is written |
| ContentRuns.WritesAreNotDone | src/content.py:64-67 | what is to be written is what is not listed with the wanted hash or not remembered with the wanted properties |
| ContentRuns.BatchIsFirstTen | src/content.py:64-71 | in key order, each once, ten at a time |
| ContentRuns.RoundWritesItsBatch | src/content.py:64-80 | a round leaves exactly the pending writes without the first ten |
| ContentRuns.MoreRoundsIsCeiling | src/content.py:68-80 | the number of rounds is the writes over ten, rounded up, and one when there are none |
| ContentRuns.RoundsCountDown | src/content.py:57-80 | each round before the last succeeds and reports what is left |
| ContentRuns.SyncConverges | src/content.py:57-80 | after that many rounds the live keys and hashes are the wanted ones and the applied properties agree on every wanted key |
| ContentRuns.DeployEndsIff | src/content.py:95-99 | a deploy ends exactly when no wanted file has such an asset |
| ContentRuns.DeployEndsByAnswer | src/content.py:95-99 | if the canister refuses every such create, exactly when no wanted file is half written; if it refuses none, always |
| ContentRuns.RoundKeepsFaithfulIff | src/content.py:75-76 | the remembered properties stay those the assets have if and only if every asset created again took the properties given |
| ContentRuns.NothingToDo | src/content.py:72-75 | a sync of a site that matches calls nothing and changes nothing |
| Up.Conductor.Materialise | src/up.py:96-98 | adds the missing member rows of a stand, in order |
| Up.Conductor.NextToProvision | src/up.py:92-102 | the first canister of the first pending stand that is not on the chain |
| Up.Conductor.SyncStand | src/stands.py:48-50 | writes files canister by canister, stopping at a remainder or a failure |
| Up.Conductor.HandOffStand | src/stands.py:51-53 | hands off the installed canisters, stopping at a failure |
| Up.Conductor.BuildStand | src/stands.py:39-58 | one round of a stand's build, every phase and every way out |
| Up.Conductor.MoveGrants | src/up.py:122-130 | one page of grants, permissions and calls, rewritten to what their principals resolve to |
| Up.Conductor.Round | src/up.py:105-133 | one round of `up`, every branch and failure |
| BuildRows.RowsAdded | src/up.py:96-98 | one row for every name asked for that is new, in the template's order, with what the template says of it |
| BuildRows.NextIsFirst | src/up.py:92-102 | next is the first canister not on the chain of the first pending stand that has one, and only that stand's rows are added |
| BuildRows.PhaseLeaves | src/stands.py:48-53 | how far a phase comes with any luck: the rows before the one that stops it are done, that one is ten files shorter or as it was, the later ones are as they were |
| BuildRows.FinishedBuildLeaves | src/stands.py:39-58 | a build that finishes found every canister on the chain and none with more than ten files, wrote them all, handed off what was installed, and touched no other row |
| BuildRows.FinishedBuildWritesFiles | src/stands.py:48-50 | every canister of the stand that was installed with content then has no file left to write |
| BuildRows.UnfinishedBuildLeaves | src/stands.py:44-50 | one that does not finish installed the first canister to create, or wrote exactly ten files of the first that has more, and all of those before it; the later rows are as they were |
| BuildRows.RaisedBuildLeaves | src/stands.py:39-53 | one whose call raises leaves the row it was made for and the later ones as they were |
| BuildRows.BuildIsFinishedIff | src/stands.py:39-58 | with no failing call it finishes if and only if nothing is to create and no canister has more than ten files |
| BuildRows.BuildMarks | src/stands.py:39-58 | the stand is marked built, and grants written, exactly when it finishes |
| BuildRows.FailedStandStops | src/up.py:105-109 | while the first stand that is not built has failed, a round changes nothing |
| BuildRows.ProvisioningRoundLeaves | src/up.py:110-118 | a round creates the first canister of the first pending stand that needs one, or fails that stand; nothing else but its new rows changes |
| BuildRows.BuildingRoundLeaves | src/up.py:119-121 | once none does, a round builds the first pending stand, and an exception fails that stand |
| BuildRows.LastRoundsLeave | src/up.py:122-133 | once all are built, rounds touch grants only, and the last one says that the orchestra is built |
| GrantRows.PutLeaves | src/grants.py:18-20 | an upsert gives the row under the key these permissions and calls, and no other key's row changes |
| GrantRows.CommandersGet | src/stands.py:54-55 | every commander's row has the permissions that the template gives last under its key |
| GrantRows.CommandersSpare | src/stands.py:54-55 | rows of no commander are as they were, and the others keep their calls |
| GrantRows.MoveLeaves | src/up.py:125-129 | a grant whose principal resolves to another: the row there has its permissions and calls, the old one is gone, no other changes |
| GrantRows.BuiltStandHasCommanders | src/stands.py:54-56 | a build that finishes leaves each commander its permissions at the stand |
| UpRuns.UnprovisionedFacts | src/up.py:92-102 | none is left exactly when every member row of every pending stand exists and is on the chain |
| UpRuns.UpBuildsOnlyPastTheBarrier | src/up.py:105-121 | whatever fails, a round works on a stand only when every canister of every pending stand is on the chain |
| UpRuns.BuildCompletes | src/stands.py:39-58 | a stand marked built has all its rows and none of them still created or installed |
| UpRuns.AskKeepsIff | src/stands.py:75-88 | a template edit keeps the built stands complete if and only if the rows it asks a built one for are there |
| UpRuns.RenameKeepsIff | src/stands.py:69-76 | a stand's rename, which takes its rows along and reads the template's names anew, keeps them so if and only if, when the stand is built, those names are there |
| UpRuns.DropStandKeepsIff | src/stands.py:61-66 | dropping a stand keeps them so if and only if no other built one asks for a row of it |
| UpRuns.AddRowKeepsIff | src/canisters.py:118-138 | a new row keeps them so if and only if it is settled or its stand is not built |
| UpRuns.SetRowKeepsIff | src/canisters.py:141-154 | a change of one row keeps them so if and only if it is settled or its stand is not built, and no built stand asks for a name it gave up |
| UpRuns.DropRowKeepsIff | src/canisters.py:223-227 | dropping a row keeps them so if and only if no built stand asks for it |
| UpRuns.StepKeepsInvIff | src/up.py:105-133 | rounds, failures, retries and growth always keep that built stands are complete; the other operations if and only if they spare what built stands ask for and have |
| UpRuns.TemplateEditIsNotBuilt | src/stands.py:69-88 | a template edit after which a built stand lacks a row it asks for |
| UpRuns.BuiltMeansReady | src/stands.py:39-158 | over every run of build rounds, retries, growth, new stands and operations that spare the built ones, a built stand has every row its template asks for and none that is only created or installed |
| GrantPass.PageProgress | src/up.py:122-130 | where every chain of resolutions ends, a page leaves less to do, though it inserts rows with higher ids |
| GrantPass.PageSettles | src/up.py:122-130 | where principals settle in one step, a page settles its rows and leaves the others ahead of the cursor |
| UpEnds.RoundProgress | src/up.py:105-133 | where every chain of resolutions ends, a round without a failing call finishes or comes down in the lexicographic measure |
| UpEnds.UpTerminates | src/up.py:105-133 | where every chain of resolutions ends, repeated rounds reach the end with every stand built; where they settle in one step, with no grant principal that resolves to anything else |
| UpEnds.EndsFromEveryTableIff | src/up.py:105-133 | `up` ends from every table if and only if every chain of resolutions ends |
| UpEnds.ResolvesEveryTableIff | src/up.py:122-130 | it leaves every principal resolved, from every table, if and only if resolving twice is resolving once |
| UpEnds.CyclicVariablesNeverEnd | src/up.py:122-130 | a page of grants to one of two variables that name each other: no number of rounds is enough |
| Upgrade.Conductor.Take | src/canisters.py:163-164 | a snapshot of the image, unless the canister is full |
| Upgrade.Conductor.Install | src/canisters.py:15-22 | the row follows only an install that worked |
| Upgrade.Conductor.KeepNewest | src/snapshots.py:33-47 | labels the snapshot, deletes all but the newest and forgets what the row said of them |
| Upgrade.Conductor.RestoreEach | src/canisters.py:169-172 | loads and deletes each snapshot taken and puts the row back |
| Upgrade.Conductor.CanisterUpgrade | src/canisters.py:157-177 | the whole operation: taken, installed, kept or rolled back |
| UpgradeRuns.OutcomeIff | src/canisters.py:157-177 | it goes through, rolls back or stops at the takes exactly when the attempts say so |
| UpgradeRows.InstallLeaves | src/canisters.py:15-22 | an install that works leaves the module and its memory and the row follows; one that fails leaves what it left and the row as it was; nothing else changes |
| UpgradeRows.PruningLeaves | src/snapshots.py:33-47 | the newest snapshots stay, exactly the ids of the others are forgotten, and the new one has its label |
| UpgradeRows.TargetAfterUpgrade | src/canisters.py:157-177 | a target alone on its canister runs the module with the memory its install left, its row has the module's key and hash, the label of its snapshot, and nothing of those pruned |
| UpgradeRuns.RollBackRestoresEverything | src/canisters.py:165-173 | a failed install leaves every image, snapshot and row as before, those just taken gone |
| UpgradeRuns.UpgradeReachesEveryTarget | src/canisters.py:163-177 | success runs the module everywhere, spares every other row and canister, and keeps the newest snapshots |
| UpgradeRuns.PreUpgradeImageSurvives | src/snapshots.py:39-47 | the newest snapshot kept of a target is its image before the upgrade, and at most `keep` remain |
| UpgradeRuns.FailedTakeChangesNoImage | src/canisters.py:163-164 | a take that fails changes no image and no row; the snapshots before it stay |
| UpgradeRuns.TakesSucceedIff | src/canisters.py:163-164 | the takes succeed if and only if every canister has room for a snapshot of each target on it |
| UpgradeRuns.NextUpgradeHasRoom | src/snapshots.py:13-20 | what is kept leaves room for the next upgrade unless more targets share a canister than the limit leaves |
| UpgradeRuns.DifferentCanistersCountOnce | src/snapshots.py:13-20 | with one target to a canister the limit on what is kept always leaves room |
| Batons.Conductor.ActionsSince | src/batons.py:326-339 | the early exit collects exactly the actions newer than the cursor, however they are paged |
| Batons.Conductor.FollowEach | src/batons.py:359-377 | rows follow the hashes of an upgrade or a restore |
| Batons.Conductor.ReleaseEach | src/batons.py:286-301 | rows follow a release, of its members only |
| Batons.Conductor.Sync | src/batons.py:342-379 | one sync: follow the version, replay what completed in order of proposal, move the cursor |
| BatonRuns.SyncReplaysNewer | src/batons.py:342-379 | a sync is a replay of what completed after the cursor, by the time it was proposed, of any log |
| BatonRows.ReleaseLeaves | src/batons.py:286-301 | after a release the label is its own, and a row that it does not name, or that is the orchestration's, is as it was |
| BatonRows.ReleasedRow | src/batons.py:286-301 | a row that it names has the key and hash, and the content and properties, given last, and keeps what none gives |
| BatonRows.MovesLeave | src/batons.py:359-377 | after an upgrade or a restore, rows not named are as they were, content stays, and the label goes on a restore or when a row changed |
| BatonRows.MovedRow | src/batons.py:304-307 | a named row has the last hash given; named once, its key is the hint where the catalog has the hash under it, else the least key that has it, else the old one |
| BatonRows.VersionLeaves | src/batons.py:345-349 | the baton's own row moves to its version when the catalog has that and it is not there yet; nothing else changes |
| BatonRows.ReplayMovesCursor | src/batons.py:378 | the cursor follows an action's time where it has one, and an action of another kind does nothing else |
| BatonRows.SortKeeps | src/batons.py:351-352 | the sort by time drops and doubles nothing |
| BatonRows.NewerIsFilter | src/batons.py:326-339 | what is newer is exactly the actions proposed after the cursor, in order |
| BatonRuns.ReplayedFacts | src/batons.py:351-352 | what is replayed is exactly what is complete, by time |
| BatonRuns.TiesReplayLatestFirst | src/batons.py:352 | two actions of one time are replayed latest first |
| BatonRuns.SyncCatchesUp | src/batons.py:342-379 | a sync leaves the rows that one replay of the whole log leaves |
| BatonRuns.IncrementalIsWhole | src/batons.py:342-379 | any split into syncs that does not divide actions of one time gives the same rows as one, when actions complete in the order they were proposed |
| BatonRuns.OutOfOrderIsLost | src/batons.py:351-378 | two syncs replay everything if and only if the first replayed where the second begins and nothing left is of the cursor's time or earlier |
| BatonRuns.LeftOutIff | src/batons.py:351-378 | leaving actions out matters to a canister that nothing replayed after them names too if and only if they change its row where they belong |
| BatonRuns.LateRowsIff | src/batons.py:342-379 | two syncs, with actions completing behind the first one's cursor, leave a canister's row as one sync of the whole log does if and only if those actions change nothing of it where they belong: every stand, catalog and version, every canister but one that a later action names too |
| BatonRuns.LateCompletionIsLost | src/batons.py:351-378 | the rows that two syncs leave when an earlier action completes late: its canister keeps the old hash |
| BatonRuns.CursorIsMonotone | src/batons.py:351-378 | the cursor never moves back and leaves nothing completed behind |
| BatonRuns.SyncTwiceIsOnce | src/batons.py:342-379 | a second sync of the same log changes nothing |
| BatonRuns.UnpagedSeesAllIff | src/batons.py:326-329 | a baton without pages shows all that is new if and only if it is at most 100 |
| BatonRuns.VersionCommutes | src/batons.py:345-349 | following the baton's own version and replaying do not disturb each other |
| Tables.PageThenRest | src/model.py:147-152 | a page and what comes after it are what was to come: no row lost or repeated |
| Tables.PageAdvances | src/model.py:147-152 | a page with a successor is full and its successor starts later |
| Paging.Ask | casals_cli/ic.py:155-164 | the first page size, halving from the one asked for, that is not too long; None exactly for another error or a single row too long |
| Paging.QueryAll | casals_cli/ic.py:146-178 | every list that is paged is exactly the rows of its table that the caller may see, each once, in id order, whatever the page sizes and halvings; an error only when a query fails that is not asked again |
| Paging.NothingHidden | casals_cli/ic.py:146-178 | where nothing is hidden that is the whole table |
| Paging.HalvedIsFirst | casals_cli/ic.py:155-164 | the size used is the first, halving, that is a single row or not too long |
| Export.GroupBySection | src/up.py:151-154 | the dict of a page: sections in order of first mention, stands in order |
| Export.ExportPage | src/up.py:140-159 | the rows of one page, full ones first |
| Export.MergeSections | casals_cli/ic.py:181-190 | the merged rows, from the two dicts the code fills |
| Export.MergedPagesAreWhole | casals_cli/ic.py:181-190 | however sections and stands were split over pages, every section comes once with all its stands in order |
| Export.PagedExportIsWhole | src/up.py:140-159 | an export read to the end in pages of any sizes merges to the export read in one |
| Export.ExportAnswers | src/up.py:140-159 | that is every section once, in order, with what it says and exactly its stands, in the order of their table |
| Index.With | src/model.py:231-233 | a write of one field leaves the others |
| Index.Scan | src/model.py:200-208 | the paged scan with its early stop finds the rows of the value, in order, up to the limit |
| Index.ReadIndex | src/model.py:209-213 | the paged reads of the index give its rows up to the limit |
| Index.Database.SetBuild | src/model.py:177-179 | the row stores the state its build fields derive, the index lists it under that state and no other, and no other row, field or index entry changes |
| Index.Database.DeriveAll | src/model.py:231-233 | the derived values of a batch are written one row at a time |
| Index.Database.ReindexBatch | src/model.py:224-238 | one batch, and whether every index is complete |
| Index.Database.Matching | src/model.py:198-213 | the lookup, by scan or by index, with its limit |
| IndexRuns.FoundIsHolding | src/model.py:198-213 | in a state of the invariant a lookup finds exactly the rows whose derived value is the one asked for |
| IndexRuns.DefaultsAreNotListed | src/model.py:70-72 | over any run from an upgrade on, a lookup of a default finds every row at it until the field's index is complete and nothing from then on |
| IndexRuns.SaveKeepsInv | src/model.py:177-179 | writes of a field keep the invariant at every stage |
| IndexRuns.CreateKeepsInv | src/model.py:79-83 | new rows keep the invariant at every stage |
| IndexRuns.ReindexKeepsInv | src/model.py:224-238 | a batch keeps the invariant and extends what is covered |
| IndexRuns.LookupsAgreeWithScans | src/model.py:198-238 | over any run of creations, deletions, writes and batches from an upgrade on, every lookup agrees with a scan |
| IndexRuns.IndexedIff | src/model.py:198-213 | a field's index is used once the backfill has come past it, and not before |
| IndexRuns.LookupAnswers | src/model.py:198-213 | over any run a lookup answers with exactly the rows whose field, or build state, is the value, in id order, the first of them where it is limited |
| IndexRuns.DefaultLookupAnswers | src/model.py:70-72 | a lookup of a default: exactly the rows at it until the field's index is complete, none from then on |
| IndexRuns.CreateLeaves | src/model.py:79-83 | a new row is the last and is listed under its values, and no other key changes |
| IndexRuns.DeleteLeaves | src/model.py:79-83 | a deleted row is gone with its keys, and no other row or key changes |
| IndexRuns.BatchCountsDown | src/model.py:224-238 | each batch brings the end exactly one batch nearer |
| IndexRuns.BackfillEnds | src/model.py:224-238 | the backfill is complete after exactly that many batches and not before |
| Store.KeyIsUnderPrefix | casals_cli/sheetv2.py:168-174 | a key is its namespace's prefix and the trimmed path |
| Store.StripIs | casals_cli/sheetv2.py:168-174 | stripping takes the outer blanks off, all of them |
| Store.TrimmedIs | casals_cli/sheetv2.py:168-174 | what is trimmed of a stripped path is its leading slashes, all of them |
| Store.NamespaceIs | casals_cli/sheetv2.py:168-174 | and of a stripped namespace the slashes at both ends |
| Store.AssetStore.CreateBatch | casals_cli/wasm_store.py:327-331 | a batch under a fresh id |
| Store.AssetStore.CreateChunk | casals_cli/wasm_store.py:333-338 | a chunk under a fresh id in its batch |
| Store.AssetStore.CommitBatch | casals_cli/wasm_store.py:340-360 | all operations of a batch or none |
| Store.AssetStore.List | casals_cli/wasm_store.py:121-134 | a page continues what comes before its offset, and is short only where the listing ends |
| Store.NextChunk | casals_cli/wasm_store.py:209-211 | consecutive chunks continue each other up to the end of the file |
| Store.ReadFile | casals_cli/wasm_store.py:166-177 | the chunks read join to the whole file, of any length |
| Store.ListEntries | casals_cli/wasm_store.py:124-147 | the pages join to the whole listing |
| Store.SendChunks | casals_cli/wasm_store.py:206-219 | the chunks sent join to the file, also when empty or an exact multiple |
| Store.UploadBytes | casals_cli/wasm_store.py:183-230 | the file is stored under its key, or refused with nothing changed, exactly when the declared hash is wrong or the caller was wrong about the key |
| Store.PutLeaves | casals_cli/wasm_store.py:183-230 | the data is under the key, a file that was there keeps its type, and no other file changes |
| Store.RoundTrip | casals_cli/wasm_store.py:166-230 | what was uploaded is what a download returns |
| Publish.StoreTarget.FileHashes | casals_cli/registry.py:269-273 | the namespace as listed, and the keys remembered |
| Publish.StoreTarget.Upload | casals_cli/registry.py:275-290 | never refused: the remembered keys are the store's |
| Publish.StoreTarget.Delete | casals_cli/registry.py:292-295 | exactly one key goes |
| Publish.StoreTarget.PutFiles | casals_cli/registry.py:399-408 | writes the planned paths, in order, and reports exactly them |
| Publish.StoreTarget.DropFiles | casals_cli/registry.py:411-412 | deletes the planned paths |
| Publish.StoreTarget.PublishBundle | casals_cli/registry.py:370-418 | writes and deletes exactly the difference, or nothing when the declared hash is wrong |
| Publish.ListedAt | casals_cli/registry.py:269-273 | a path is listed exactly when its key is in the store, with its hash |
| PublishRuns.PublishIsExactIff | casals_cli/registry.py:370-418 | the namespace equals the bundle, the manifest aside, if and only if every planned path is one its key spells |
| PublishRuns.PublishServes | casals_cli/registry.py:370-418 | where they are, each file of the bundle but the manifest is served with its hash, with the bundle's bytes where it was not before, and nothing else is listed |
| PublishRuns.PlanIs | casals_cli/bundle.py:241-249 | what is reported written and deleted: not listed with its hash before, and not in the bundle |
| PublishRuns.OtherNamespacesUntouched | casals_cli/registry.py:370-418 | no key outside the namespace changes |
| PublishRuns.ManifestUntouched | casals_cli/bundle.py:241-249 | the manifest is as it was, unless another planned path is trimmed to its name |
| PublishRuns.CleanPlanSparesManifest | casals_cli/bundle.py:241-249 | no planned path is, when they are all spelt by their keys |
| PublishRuns.BlankIsLost | casals_cli/sheetv2.py:168-174 | a bundle path with an outer blank is not listed after publishing |
| PublishRuns.DoubleSlashStays | casals_cli/sheetv2.py:168-174 | a stored key with two slashes after its namespace stays listed |
| PublishRuns.NothingToDoIff | casals_cli/bundle.py:241-249 | the difference is empty if and only if the namespace is exact |
| PublishRuns.SecondPublishIsEmpty | casals_cli/registry.py:370-418 | a second publish writes and deletes nothing |
| Chunks.ModuleDeps | frontend/scripts/monaco-chunks.js:52-80 | the worklist ends and holds exactly the modules reachable from the entries, with their imports |
| Chunks.Tally | frontend/scripts/monaco-chunks.js:87-103 | how many imports each module waits for and who waits for it |
| Chunks.Finish | frontend/scripts/monaco-chunks.js:115-119 | one module done: its users wait for one less, and who waits for none is ready |
| Chunks.DependencyOrder | frontend/scripts/monaco-chunks.js:87-122 | every listed module once and after everything it imports; what is left out waits on something left out |
| Chunks.CompleteIffAcyclic | frontend/scripts/monaco-chunks.js:87-122 | all modules are listed if and only if the import graph has no cycle |
| Chunks.Pack | frontend/scripts/monaco-chunks.js:138-151 | every module has one chunk, numbers never fall along the order, a chunk over budget holds one module of non-zero size, and a new chunk starts exactly where the next module would take the one so far over the budget |
| Chunks.WeightsAdd | frontend/scripts/monaco-chunks.js:138-151 | what a chunk weighs is the sum over its modules |
| Chunks.WeightOfOne | frontend/scripts/monaco-chunks.js:138-151 | a module weighs its size in its own chunk, and nothing in any other |
| Chunks.ChunkMap | frontend/scripts/monaco-chunks.js:129-152 | refused exactly on a cycle, else no import points to a later chunk |
| Wildcard.LeftmostIsEnough | casals_cli/sheetv2.py:1686-1692 | taking the leftmost place of a part never misses a way to place the rest |
| Wildcard.PlacedIsMatches | casals_cli/sheetv2.py:1682 | placing the parts between stars is filling in the stars |
| Wildcard.GlobMatch | casals_cli/sheetv2.py:1680-1693 | true if and only if strings for the stars make the pattern the name |
| Glob.ClassHas | casals_cli/ic_assets.py:114-125 | one class member, ranges and negation included |
| Glob.MatchAny | casals_cli/ic_assets.py:131-133 | tries every later place |
| Glob.MatchStar | casals_cli/ic_assets.py:134-141 | tries every place before the next slash |
| Glob.MatchOne | casals_cli/ic_assets.py:142-155 | one character against one token, and where the next token is |
| Glob.Match | casals_cli/ic_assets.py:128-157 | accepts exactly the paths that can be cut into what the tokens denote |
| GlobLaws.PlainLaw | casals_cli/ic_assets.py:151-155 | a character that means nothing, or a bracket that never closes, stands for itself |
| GlobLaws.QuestionLaw | casals_cli/ic_assets.py:142-146 | `?` stands for one character that is no slash |
| GlobLaws.ClassLaw | casals_cli/ic_assets.py:147-151 | a class stands for one character in it |
| GlobLaws.NegationLaw | casals_cli/ic_assets.py:114-116 | a class that begins with `!` or `^` has the characters it does not list |
| GlobLaws.RangeLaw | casals_cli/ic_assets.py:119-121 | a range has what lies between its ends |
| GlobLaws.MemberLaw | casals_cli/ic_assets.py:122-124 | a character that begins no range stands for itself |
| GlobLaws.StarLaw | casals_cli/ic_assets.py:134-141 | a star stands for anything without a slash |
| GlobLaws.StarsLaw | casals_cli/ic_assets.py:131-133 | two stars stand for anything |
| GlobLaws.StarsSlashLaw | casals_cli/ic_assets.py:131-133 | and take a slash after them along |
| GlobLaws.EmptyLaw | casals_cli/ic_assets.py:157 | the empty glob accepts the empty path only |
| GlobLaws.BraceLaw | casals_cli/ic_assets.py:106-111 | a glob expands to what it expands to with each alternative in the place of its first pair |
| GlobLaws.NoPairLaw | casals_cli/ic_assets.py:107-110 | without a pair it expands to itself |
| GlobLaws.AlternativesLaw | casals_cli/ic_assets.py:111 | alternatives are what stands between commas |
| Glob.ExpansionIsEveryCombination | casals_cli/ic_assets.py:106-111 | for unnested braces the expansion is the product of the alternatives |
| GlobBraces.NestingLeaksIff | casals_cli/ic_assets.py:106-111 | a balanced glob expands without a stray brace if and only if no pair with another opened inside it has a comma before its first closing brace |
| Glob.NestedBracesLeak | casals_cli/ic_assets.py:106-111 | a glob that leaks |
| Glob.GlobMatch | casals_cli/ic_assets.py:160-165 | true if and only if some expansion accepts the path without leading slashes |
| Charts.LatestFacts | frontend/src/lib/charts.ts:65-69 | the latest point at or before a time, the last given of equals |
| Charts.DedupedFacts | frontend/src/lib/charts.ts:48-63 | strictly increasing times, and at or before any time the same last point as the input |
| Charts.DedupeSeriesPoints | frontend/src/lib/charts.ts:52-63 | the stable sort collapsed, last sample of a time kept |
| Charts.Group | frontend/src/lib/charts.ts:72-80 | the points of each canister in order |
| Charts.PointsOfIsFilter | frontend/src/lib/charts.ts:72-80 | a canister's points are exactly its samples, in order |
| Charts.NamesOnce | frontend/src/lib/charts.ts:72-80 | every canister sampled counts, once |
| Charts.Advance | frontend/src/lib/charts.ts:100-104 | a pointer moved on holds the latest value by then |
| Charts.ForwardFill | frontend/src/lib/charts.ts:92-109 | at each time the sum of the canisters' latest values |
| Charts.AggregateBalanceSeries | frontend/src/lib/charts.ts:70-110 | at each sample time the sum over canisters of the last sample at or before it, or nothing before the first |
| Charts.TotalsAdd | frontend/src/lib/charts.ts:92-109 | the totals of two groups of canisters add up |
| Charts.TotalOfOne | frontend/src/lib/charts.ts:92-109 | the total of one is its latest balance by then, nothing before its first |
| Charts.AggregatedTimes | frontend/src/lib/charts.ts:92-109 | one point for each time sampled, strictly increasing |
| Charts.UnsampledCountsTheSame | frontend/src/lib/charts.ts:65-69 | a canister that was not sampled in between counts the same |
| Charts.IntervalBurnFromCumulative | frontend/src/lib/charts.ts:125-136 | what each interval rose by, never below zero |
| Charts.IntervalAt | frontend/src/lib/charts.ts:125-136 | each interval is what the line rose by since the point before, at the time of the later one |
| Charts.IntervalsAddUpIff | frontend/src/lib/charts.ts:125-136 | the intervals add up to the rise if and only if the line never falls, else to more |
| Charts.BucketBurnSeries | frontend/src/lib/charts.ts:295-306 | each bucket with a point, its sum, in order of time |
| Charts.BucketEndIs | frontend/src/lib/charts.ts:295-306 | a point is in the bucket that ends at the next multiple of the width after it |
| Charts.BucketsAdd | frontend/src/lib/charts.ts:295-306 | what a bucket holds is the sum over its points |
| Charts.BucketOfOne | frontend/src/lib/charts.ts:295-306 | and a point adds its value to its own bucket only |
| Charts.BucketsConserve | frontend/src/lib/charts.ts:295-306 | the buckets add up to the points and their times strictly increase |
| Leb.Encode | src/sweeper.py:19-26 | the loop ends and emits the encoding, signed or not |
| Leb.UnsignedRoundTrip | src/sweeper.py:19-26 | a natural is read back, and what follows it |
| Leb.SignedRoundTrip | src/sweeper.py:19-26 | an integer is read back, and what follows it |
| Leb.UnsignedShortest | src/sweeper.py:19-26 | nothing shorter reads as the number, and nothing else of the same length |
| Leb.SignedShortest | src/sweeper.py:19-26 | the same for signed integers |
| Leb.UnsignedLengthIff | src/sweeper.py:19-26 | at most k bytes if and only if at most 7k bits |
| Leb.SignedLengthIff | src/sweeper.py:19-26 | the same with a sign bit |
| Leb.BlobRoundTrip | src/sweeper.py:33-34 | the data is recovered from its declared size |
| Leb.VecRoundTrip | src/sweeper.py:29-30 | the items are recovered with any parser that reads each of them |
| Leb.SectionRoundTrip | src/sweeper.py:37-38 | a section's id and body are recovered, and the items from the body |
| Leb.SectionsRoundTrip | src/sweeper.py:76-92 | all sections of a module are recovered one after the other |

## Left out

- The transport: inter-canister calls, Candid text, `icp` subprocesses, HTTP, files, gzip and tar. Calls are parameters
  that succeed, fail or return what they are given to return.
- SHA-256 is any function; where the code compares hashes the results are about hashes, not bytes.
- The entity database's own internals: tables are rows in id order with gaps, `find_by` a page of the rows an index
  lists, `rebuild_field_index` one batch filed under stored values. Values at their default are taken as not indexed,
  as the comments of src/model.py say.
- Targets of grants are given trimmed. Callers' principals and checksums of codes are texts without a bar, as the
  platform and SHA-256 make them; a grant's target may be any text. Every stored grant is under the key of its own scope
  and principal, as every operation of the source leaves it.
- Grants written outside the grant operations (template commanders, `orchestra_up` documents) are not part of the
  delegation result; the commanders' effect on termination is in `UpEnds`.
- Readers' scopes, `authorize` and the masking of slots: reads that branch on the same keys.
- Rounds within `build_all` are atomic; what other messages do between the awaits of one round is modelled for the
  scheduler only. At an upgrade the platform drops the timers and the suspended rounds with the heap, and which jobs the
  rows then call for is a parameter.
- A fail handler that raises inside `tick` is a trap: the running entry stays for the watchdog.
- `resolve` over stored variables and nested values is a function of the principal, and member names that contain `$`
  are taken as resolved.
- The bundle cache's time to live, the expected bundle hash of a deploy and the batch id of an asset upload.
- Loading and deleting a snapshot do not fail, as `canister_upgrade` itself presumes.
- Who may call `section_set`, `stand_set`, `canister_create`, `canister_set` and the like: in `UpRuns` they are what they
  do to a stand or a row.
- A baton's own canister is not a target of the actions it files. Hashes are given in lower case, and a registry hint
  as the catalog key it stands for.
- Plain lists of a paged reply that are not named in `next`: `query_all` appends them once a page. A page size of zero.
- Batch commits of the store are all or nothing, as a trapped message is; the test double stops in the middle instead,
  and ignores the offset of a listing.
- Declared hashes of an upload are in lower case; the progress meter, the content type's guess (a function here) and
  `properties_file`, whose result is a parameter.
- `read` and `files` of src/store.py: the loops of `ReadFile` and `ListEntries` again, on the conductor's side.
- `orchestra_get` and its tree of views: paged lists as in `Paging`, and displays.
- Chunk names: the model numbers chunks, the script spells them.
- Burn series across canisters: the loop of the balance series with two sums.
- Rounding: chart values are reals.
- The ranges of Rust's globset, where `**/` is a path component; the results are about the tokens of the code itself.
- Sheet validation, placeholder corner cases, funding estimates, display helpers and forms, which would add easy members.
