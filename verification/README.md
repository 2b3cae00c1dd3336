# Api Nova: a verified model of its protocols and kernels

Dafny models of the parts of Api Nova whose correctness does not show in any one function, with
proofs over all inputs, all runs and all interleavings. `dafny verify dfyconfig.toml` checks
everything.

| module | models |
|---|---|
| PersistenceFence, ExclusiveLane | the write fence around SQL.js auto-save and the write lane |
| HeaderPolicy, HeaderLedger, CredentialRegistry, RegistryReload, HostedRegistry | header policies, the ledger of retired credential headers, registries that reload against it, what a reload comes to, and registries with their generation store |
| HostEpochs, OperationAuthority, OperationSafety, HostedAuthority | security epochs, admission and revocation of network operations, and the two together |
| CredentialMaterial, CredentialGenerations, GenerationLives, ProviderEvidence | credential material, its generations and how long they live, and single-use proofs |
| AddressText, IpAddress, AddressSpellings, AddressRanges, AddressClasses, AddressTable | address texts and all their spellings, CIDR ranges, classification |
| NetworkPolicy, NetworkDecisions | the policy compiler, and what compiles and is admitted |
| AuditQueue, AuditSummary | the audit writer's queue, and the summariser that counts its log |
| Graph, BuildOrder, SchemaCycles | topological sort and cycle enumeration |
| HostNames, SiteSelection, ToolNames, RedirectChain, ConfigOverrides | host names and site matching, tool names, redirects, configuration overrides |

State that the source updates in place is a class whose methods are proved against functions on
a value of the state (`View()`). Code that awaits is cut at its suspension points into steps, and
the main theorems quantify over all sequences of steps (`IsRun`, `After`). Clocks, callbacks,
database and file operations are arguments of the steps; UUIDs are tokens never used before.

## Where the code falls short of its intent

* **A write can be lost** (`PersistenceFence.LostWrite`). A save settles in two microtasks. After
  a failed save has raised the dirty flag, a non-writing query that returns before the save's
  `finally` recomputes the flag from the flight still in place and clears it; a flush that returns
  before another query has raised or recomputed the flag leaves the write unsaved. `StaleExactly`
  says when the flag misses a write, `FlushesKeptExactly` which runs lose a flush, and
  `LossyExactly` that this one step is the cause.
* **A stored override cannot be updated** (`ConfigOverrides.UpdateFieldExactly`, with an example in
  `SecondUpdateThrows`). `updateConfig` saves a row without its generated id, which inserts, and
  the environment key has a unique index
  (`packages/api-nova-api/src/database/entities/config-override.entity.ts:13-17`). It can only be
  removed first or imported over.
* **A call can move to another origin** (`AuditSummary.OriginReplaced`, `OriginAssigned`). The
  fields of a progress or finish report may contain an origin, which replaces the call's; and every
  report copies the record that `beginRuntimeCall` returns, which its holders assign to
  (`packages/api-nova-server/src/tools/mcp-http-audit.ts:128-131`,
  `packages/api-nova-api/src/modules/gateway-runtime/services/gateway-request-audit.ts:131`). All
  summaries of a run agree with the calls begun if and only if no report on an unfinished call was
  written with another origin than the call began with (`StartsMatchBegun`).
* **The resolver misses sites with an IPv6 literal host** (`SiteSelection.RedirectAgreesExactly`).
  It keeps the brackets of the URL's host
  (`packages/api-nova-parser/src/credentials/resolver.ts:93`), which no configured host has
  (`packages/api-nova-parser/src/credentials/schema.ts:109-110`), while the redirect selector
  reads the address without them. The two choose alike on every other URL.
* **`loopKey` taken by itself is not idempotent on every text**; `RedirectChain.IdempotentExactly`
  says on which. The chain rejects malformed escapes before it asks for a key.

## Model

| member | source | states |
|---|---|---|
| `PersistenceFence.Runner.AfterQuery` | packages/api-nova-api/src/database/sqljs-persistence.ts:73-83 | the dirty flag after a query, recomputed from the flight as it is by then |
| `PersistenceFence.Runner.DuringQuery` | packages/api-nova-api/src/database/sqljs-persistence.ts:74-77 | the stock query raises the dirty flag before it returns |
| `PersistenceFence.Runner.FlushLoopTop` | packages/api-nova-api/src/database/sqljs-persistence.ts:88-112 | one turn of the flush loop: resolve, join the save in flight, or capture and start one; never exports inside a transaction |
| `PersistenceFence.Runner.FlushResume` | packages/api-nova-api/src/database/sqljs-persistence.ts:113-118 | after a save: resolve when the target is durable or a transaction is open, else loop |
| `PersistenceFence.Runner.TryBeginTransaction` | packages/api-nova-api/src/database/sqljs-persistence.ts:121-129 | the loop test before BEGIN |
| `PersistenceFence.Runner.OnSaveSettled` | packages/api-nova-api/src/database/sqljs-persistence.ts:98-103 | success makes the captured generation durable; failure only raises the dirty flag |
| `PersistenceFence.Runner.OnSaveFinished` | packages/api-nova-api/src/database/sqljs-persistence.ts:103-106 | newer writes raise the dirty flag again and the flight ends |
| `PersistenceFence.EveryRunIsSafe` | packages/api-nova-api/src/database/sqljs-persistence.ts:69-129 | in every interleaving durable <= captured <= generation, no export starts inside a transaction, every save started for a flush covers its target, and a flush awaits at most two saves |
| `PersistenceFence.OneSaveAtATime` | packages/api-nova-api/src/database/sqljs-persistence.ts:88-112 | at any moment at most one of the saves started has not come to its finally |
| `PersistenceFence.SecondSaveIsTheLast` | packages/api-nova-api/src/database/sqljs-persistence.ts:84-119 | when the second save a flush awaits settles, the flush rejects, or resolves with its target durable: it never chases later traffic |
| `PersistenceFence.FlushEndsExactly` | packages/api-nova-api/src/database/sqljs-persistence.ts:84-112 | in every run a flush that comes in rejects, resolves or awaits by what it finds: it rejects if and only if something is flagged, no save is in flight, no transaction is open and its export throws |
| `PersistenceFence.ContinueEndsExactly` | packages/api-nova-api/src/database/sqljs-persistence.ts:113-118 | in every run a woken flush rejects if and only if the save it awaited failed, or its target is not durable and the export it needs throws; it resolves if and only if the save succeeded and its target is durable, a transaction is open, or nothing is flagged and no save is in flight |
| `PersistenceFence.FinishWakesExactly` | packages/api-nova-api/src/database/sqljs-persistence.ts:103-113 | when a save comes to its finally every call that awaits is woken with the outcome of that save, and no other is |
| `PersistenceFence.FaultlessRunsRejectNothing` | packages/api-nova-api/src/database/sqljs-persistence.ts:84-119 | if every save succeeds and no export throws, no flush is ever rejected |
| `PersistenceFence.GenerationsAreWrites` | packages/api-nova-api/src/database/sqljs-persistence.ts:78-90 | generations count the writes, and a save captures all there are when it starts |
| `PersistenceFence.MissedStep` | packages/api-nova-api/src/database/sqljs-persistence.ts:81-104 | a step leaves a write that the clean flag misses if and only if it is a non-writing query returning inside the window of a failed save, with something unsaved and nothing written since the capture |
| `PersistenceFence.NoneMissedOnRuns` | packages/api-nova-api/src/database/sqljs-persistence.ts:69-129 | over whole runs the flag misses no write in any state, those inside a query included, if and only if no such step occurs |
| `PersistenceFence.FlushMeansDurable` | packages/api-nova-api/src/database/sqljs-persistence.ts:84-119 | in a run without such a step every flush that resolved with no transaction active had its whole target durable |
| `PersistenceFence.StaleExactly` | packages/api-nova-api/src/database/sqljs-persistence.ts:74-106 | in every run the flag misses a write now if and only if some step lost one and no query has raised or recomputed the flag since |
| `PersistenceFence.RaisedExactly` | packages/api-nova-api/src/database/sqljs-persistence.ts:74-106 | in every run the flag is up with nothing to save if and only if nothing is owed and a query under way or a failed save raised it, with no query returned and no save begun since |
| `PersistenceFence.FlushesKeptExactly` | packages/api-nova-api/src/database/sqljs-persistence.ts:84-119 | in every run, lossy or not, all flushes that resolved with no transaction active had their target durable if and only if none returned on a stale flag with no save in flight |
| `PersistenceFence.LossyExactly` | packages/api-nova-api/src/database/sqljs-persistence.ts:81-119 | whatever step comes next in a lossless run, every continuation without a further lossy step keeps its flushes if and only if that step is not lossy |
| `PersistenceFence.CoarseRunsLoseNothing` | packages/api-nova-api/src/database/sqljs-persistence.ts:98-106 | no such step occurs when a save settles in one step |
| `PersistenceFence.CoarseFlushMeansDurable` | packages/api-nova-api/src/database/sqljs-persistence.ts:84-119 | so, at that granularity, the flag misses nothing and flushes are durable in every run |
| `PersistenceFence.LostWrite` | packages/api-nova-api/src/database/sqljs-persistence.ts:81-106 | such a run: the flush after a lossy step resolves while generation 1 is not durable |
| `PersistenceFence.BeginsOnlyCovered` | packages/api-nova-api/src/database/sqljs-persistence.ts:121-129 | an outer transaction begins if and only if every earlier write is durable or captured by the save in flight; that save is alive unless it is exactly the window of a failed one that had something to save |
| `ExclusiveLane.StartsInArrivalOrder` | packages/api-nova-api/src/database/sqljs-persistence.ts:32-46 | operations start in arrival order, each after its predecessor settled, however that went |
| `ExclusiveLane.MutualExclusion` | packages/api-nova-api/src/database/sqljs-persistence.ts:32-46 | the running top-level operation is exactly the owner, so there is at most one |
| `ExclusiveLane.StaleTokenQueues` | packages/api-nova-api/src/database/sqljs-persistence.ts:37-44 | a call runs inline exactly with the token of the running operation; a stale inherited token queues |
| `ExclusiveLane.OnlyTheOldestMayStart` | packages/api-nova-api/src/database/sqljs-persistence.ts:38-44 | an operation may start exactly when nothing runs and it is the oldest one waiting |
| `ExclusiveLane.WriteLane.Exclusive` | packages/api-nova-api/src/database/sqljs-persistence.ts:36-46 | arrival: inline for the owner, else chained on the tail |
| `ExclusiveLane.WriteLane.Begin` | packages/api-nova-api/src/database/sqljs-persistence.ts:38-41 | the operation becomes the owner |
| `ExclusiveLane.WriteLane.End` | packages/api-nova-api/src/database/sqljs-persistence.ts:41-44 | the owner is cleared and the successor may start |
| `HeaderPolicy.ExtensionList` | packages/api-nova-parser/src/headers/header-policy.ts:32-45 | exactly the lower-cased names, or the first fault in order |
| `HeaderPolicy.CheckNames` | packages/api-nova-parser/src/headers/header-policy.ts:61-66 | the fault of the first faulty name, or none |
| `HeaderPolicy.NormalizePolicy` | packages/api-nova-parser/src/headers/header-policy.ts:47-60 | both lists normalized; an absent list stays absent |
| `HeaderPolicy.CompileHeaderPolicy` | packages/api-nova-parser/src/headers/header-policy.ts:67-90 | own lists override inherited ones, base lists are added, and the error order of the source is kept |
| `HeaderPolicy.CompileExactly` | packages/api-nova-parser/src/headers/header-policy.ts:67-90 | compilation succeeds if and only if the lists are well formed and meet no present or historical credential header, in whatever order those are listed |
| `HeaderPolicy.CompiledIsDisjoint` | packages/api-nova-parser/src/headers/header-policy.ts:84-88 | a policy that compiles forwards no header, under any spelling, that carries a credential now or ever did |
| `HeaderPolicy.ForwardsExactly` | packages/api-nova-parser/src/headers/header-policy.ts:67-83 | a compiled policy forwards a header if and only if it is of the base list or of the extension list in force: the own one if stated, else the inherited one |
| `HeaderPolicy.NothingReservedAdded` | packages/api-nova-parser/src/headers/header-policy.ts:32-45 | beyond the base lists no reserved header or prefix is ever forwarded |
| `HeaderLedger.NamesAreCanonical` | packages/api-nova-api/src/database/gateway-header-history-ledger.service.ts:29-33 | validated names are canonical, and canonical names pass unchanged |
| `HeaderLedger.WriteIsCas` | packages/api-nova-api/src/database/gateway-header-history-ledger.service.ts:53-65 | a success unions the names into the row it read and raises the revision by one; anything else changes nothing |
| `HeaderLedger.Ledger.BeginAppend` | packages/api-nova-api/src/database/gateway-header-history-ledger.service.ts:45-50 | validation, the read and the revision check before the write |
| `HeaderLedger.Ledger.FinishAppend` | packages/api-nova-api/src/database/gateway-header-history-ledger.service.ts:51-65 | one atomic insert or conditional update of the row as it is by then |
| `CredentialRegistry.AllDisjoint` | packages/api-nova-parser/src/credentials/registry.ts:366-376 | every policy compiled for a candidate is disjoint from the names it was compiled against |
| `CredentialRegistry.CompileSites` | packages/api-nova-parser/src/credentials/registry.ts:366-376 | the loops over sites and endpoints compute the specified policies or fail as soon as one does |
| `CredentialRegistry.Registry.Acquire` | packages/api-nova-parser/src/credentials/registry.ts:321-323 | a reload is refused while another runs |
| `CredentialRegistry.Registry.PrepareCandidate` | packages/api-nova-parser/src/credentials/registry.ts:358-376 | the union with the history, its limit, and the policies compiled against it |
| `CredentialRegistry.Registry.Swap` | packages/api-nova-parser/src/credentials/registry.ts:462-470 | history, snapshot and error change together |
| `CredentialRegistry.Registry.Fail` | packages/api-nova-parser/src/credentials/registry.ts:335-343 | a failure leaves the active snapshot and the history alone |
| `CredentialRegistry.EveryRun` | packages/api-nova-parser/src/credentials/registry.ts:317-471 | what every interleaving of registries and appenders on one ledger keeps |
| `CredentialRegistry.LedgerNeverForgets` | packages/api-nova-api/src/database/gateway-header-history-ledger.service.ts:45-66 | between any two moments of a run the ledger only gains names and its revision rises by exactly the number of successful appends |
| `CredentialRegistry.CommitPoint` | packages/api-nova-parser/src/credentials/registry.ts:449-461 | at a successful commit the ledger set is the snapshot's historical names, disjoint from all of its compiled lists |
| `CredentialRegistry.OnlyActivationSwaps` | packages/api-nova-parser/src/credentials/registry.ts:462-470 | the active snapshot changes only by a completed activation, one generation up, with the captured provider generation live; a failed reload leaves it |
| `CredentialRegistry.RegistryInEveryRun` | packages/api-nova-parser/src/credentials/registry.ts:346-471 | at most three compare-and-sets a reload, reloads exclude each other, the history is in the ledger, and no served policy lists a retired header |
| `RegistryReload.BegunExactly` | packages/api-nova-parser/src/credentials/registry.ts:321-325 | a reload is refused while another runs, changing nothing; else it begins with its capture or fails with it |
| `RegistryReload.LoadedExactly` | packages/api-nova-parser/src/credentials/registry.ts:353-357 | a loaded candidate is taken up if and only if the captured generation is live, the environment is the registry's and no snapshot of its revision is active; the first failing guard gives its error |
| `RegistryReload.PreparedExactly` | packages/api-nova-parser/src/credentials/registry.ts:359-376 | it is compiled against the ledger, the history and its own names; that fails if the ledger cannot be read, the union exceeds the limit or a policy is not acceptable |
| `RegistryReload.CandidateExactly` | packages/api-nova-parser/src/credentials/registry.ts:368-376 | a candidate compiles if and only if the policy of every site, and of every endpoint that has or inherits one, is acceptable |
| `RegistryReload.CandidateServes` | packages/api-nova-parser/src/credentials/registry.ts:368-376 | it then keeps, for each site and endpoint, exactly the policy stated there |
| `RegistryReload.ServedExactly` | packages/api-nova-parser/src/credentials/registry.ts:429-437 | in every run the active snapshot serves the endpoint's policy, or else its site's |
| `RegistryReload.CheckedExactly` | packages/api-nova-parser/src/credentials/registry.ts:445-461 | after the checks the reload goes to its commit, or activates without a ledger, unless a check failed, the generation is gone or the watcher was stopped |
| `RegistryReload.ReadExactly` | packages/api-nova-api/src/database/gateway-header-history-ledger.service.ts:45-50 | the commit goes on only at the revision compiled at; another revision is a conflict |
| `RegistryReload.WrittenExactly` | packages/api-nova-api/src/database/gateway-header-history-ledger.service.ts:53-65 | the commit succeeds if and only if the row is still the one it read |
| `RegistryReload.ResumedExactly` | packages/api-nova-parser/src/credentials/registry.ts:452-467 | a committed snapshot is activated unless its generation is gone; a conflict is retried as a first attempt unless it was the third or the watcher was stopped |
| `RegistryReload.ReloadSucceeds` | packages/api-nova-parser/src/credentials/registry.ts:317-471 | in every interleaving, a reload with a good candidate whose callbacks succeed and whose ledger nobody else writes is over after exactly six steps of its own, three without a ledger, with that candidate active, one generation up |
| `HostedRegistry.SwapNeedsActive` | packages/api-nova-parser/src/credentials/registry.ts:462-467 | with the generation store as provider a snapshot is replaced only while the issuer is open and the captured generation is active in the store and not yet due |
| `HostedRegistry.BeginCapturesExactly` | packages/api-nova-parser/src/credentials/registry-provider-evidence.ts:91-95 | at any moment of a run a reload begins with one capture only: none without a provider; else the current generation of the store if it is in force and the issuer open, and a failed one if not |
| `OperationAuthority.CountsOfUpdate` | packages/api-nova-parser/src/network/network-operation-authority.ts:47-51 | how one changed operation moves the two counts |
| `OperationAuthority.StopSourceKeeps` | packages/api-nova-parser/src/network/network-operation-authority.ts:52-56 | when the epoch reader fails, all operations of the source close, each once |
| `OperationAuthority.ValidateKeeps` | packages/api-nova-parser/src/network/network-operation-authority.ts:60-71 | validation succeeds only on an open operation under the very epoch it began with; a failure closes it |
| `OperationAuthority.EnterKeeps` | packages/api-nova-parser/src/network/network-operation-authority.ts:92-96 | admission keeps the counters within the limit |
| `OperationAuthority.RevokeKeeps` | packages/api-nova-parser/src/network/network-operation-authority.ts:111-115 | a revocation closes every operation of its source |
| `OperationSafety.EveryRun` | packages/api-nova-parser/src/network/network-operation-authority.ts:42-116 | over every run count is the number of open operations, orphanCaptures the number of closed ones with an unsettled capture, their sum within the limit, and slots list exactly the open operations |
| `OperationSafety.RunEvolves` | packages/api-nova-parser/src/network/network-operation-authority.ts:47-71 | closed stays closed; source, epoch and generation never change |
| `OperationSafety.RevokedForGood` | packages/api-nova-parser/src/network/network-operation-authority.ts:86-116 | nothing begun before a revocation ever validates again, handle or begin in flight, whatever the epoch reads |
| `OperationSafety.BeginsExactly` | packages/api-nova-parser/src/network/network-operation-authority.ts:92-96 | a reading of one step: begin is admitted if and only if there is room, a slot and a readable epoch that no revocation blocks |
| `OperationSafety.BeginsOnOtherEpoch` | packages/api-nova-parser/src/network/network-operation-authority.ts:93-112 | as long as its source is not revoked again, an operation begins after a revocation only under another epoch than it blocked, and not at all if it could name none |
| `OperationSafety.CurrentThroughout` | packages/api-nova-parser/src/network/network-operation-authority.ts:60-116 | an operation whose handle answers was open at every moment since it began, reads the epoch it began with, and its source was not revoked in between |
| `OperationSafety.ValidatesExactly` | packages/api-nova-parser/src/network/network-operation-authority.ts:60-71 | a validation succeeds if and only if the operation is open, in time, reads the epoch it began with and, with a context, is authorized |
| `OperationSafety.CurrentExactly` | packages/api-nova-parser/src/network/network-operation-authority.ts:108-110 | in every run a handle answers if and only if its operation is open with its context, in time and authorized, and the epoch read is the one it began with |
| `OperationSafety.LaunchesExactly` | packages/api-nova-parser/src/network/network-operation-authority.ts:103-103 | in every run a capture is launched if and only if the operation is open, in time and reads its epoch |
| `OperationSafety.OpenExactly` | packages/api-nova-parser/src/network/network-operation-authority.ts:47-116 | an operation open at some moment is open at the end of a run if and only if no step stopped it, revoked its source, failed to read its source's epoch, or failed its own validation |
| `OperationSafety.LastEpochExactly` | packages/api-nova-parser/src/network/network-operation-authority.ts:52-59 | in every run the epoch a revocation is to block is the last one read for its source and not refused |
| `OperationAuthority.StepMoves` | packages/api-nova-parser/src/network/network-operation-authority.ts:52-71 | only a revocation of its source changes what a slot bars, and only reading that source gives it a new epoch |
| `OperationAuthority.Authority.StopOne` | packages/api-nova-parser/src/network/network-operation-authority.ts:47-51 | closes one operation |
| `OperationAuthority.Authority.StopAllOf` | packages/api-nova-parser/src/network/network-operation-authority.ts:54-54 | the loop closes every open operation of the source |
| `OperationAuthority.Authority.ReadEpoch` | packages/api-nova-parser/src/network/network-operation-authority.ts:52-59 | the three outcomes of reading an epoch |
| `OperationAuthority.Authority.Check` | packages/api-nova-parser/src/network/network-operation-authority.ts:60-71 | validation, its failures closing the operation |
| `OperationAuthority.Authority.Begin` | packages/api-nova-parser/src/network/network-operation-authority.ts:92-96 | limit, slot, epoch and registration in that order |
| `OperationAuthority.Authority.SettleCapture` | packages/api-nova-parser/src/network/network-operation-authority.ts:103-103 | a settled capture of a closed operation frees its place |
| `OperationAuthority.Authority.RevokeSource` | packages/api-nova-parser/src/network/network-operation-authority.ts:111-115 | generation, blocked epoch and the closing of all operations |
| `HostEpochs.StepRetires` | packages/api-nova-parser/src/network/host-security-epoch-authority.ts:24-88 | a step keeps an activation or retires its token, and a retired token never returns |
| `HostEpochs.ActivationIsFresh` | packages/api-nova-parser/src/network/host-security-epoch-authority.ts:48-60 | when exactly an activation is granted, and that at no moment of the run before was any source active under its token |
| `HostEpochs.ReadIsCurrent` | packages/api-nova-parser/src/network/host-security-epoch-authority.ts:61-67 | a read answers, with the token of the activation in force, if and only if there is one, it is not due and the registry is available; a failure is a denial exactly when the source was denied or is due |
| `HostEpochs.LastsExactly` | packages/api-nova-parser/src/network/host-security-epoch-authority.ts:25-88 | an activation lasts to the end of a run if and only if no step activated anew, stopped or expired it, found the registry unavailable or closed |
| `HostEpochs.Authority.CheckHealthy` | packages/api-nova-parser/src/network/host-security-epoch-authority.ts:34-38 | an unavailable subscription stops every active source |
| `HostEpochs.Authority.ActivateSource` | packages/api-nova-parser/src/network/host-security-epoch-authority.ts:48-60 | a fresh token, within the source limit, not yet expired |
| `HostEpochs.Authority.ReadSource` | packages/api-nova-parser/src/network/host-security-epoch-authority.ts:61-67 | expiry is noticed on reading |
| `HostEpochs.Authority.StopActivation` | packages/api-nova-parser/src/network/host-security-epoch-authority.ts:68-69 | after it the source has no current token |
| `HostEpochs.Authority.CloseAll` | packages/api-nova-parser/src/network/host-security-epoch-authority.ts:84-87 | after it no source has a current token |
| `HostedAuthority.CurrentExactly` | packages/api-nova-parser/src/network/network-operation-authority.ts:60-110 | with the host epochs as reader a handle answers if and only if its operation is open with its context, in time and authorized, and its source is still in the activation it began under, not due, with the registry available |
| `HostedAuthority.ActivationOverForGood` | packages/api-nova-parser/src/network/host-security-epoch-authority.ts:25-69 | once that activation is over the handle never answers again, whatever follows |
| `HostedAuthority.BlockedForGood` | packages/api-nova-parser/src/network/network-operation-authority.ts:57-112 | with the host epochs as reader no operation ever begins again under an epoch that a revocation of its source blocked, however many revocations and activations follow |
| `CredentialMaterial.CopyIsExact` | packages/api-nova-parser/src/credentials/host-credential-generations.ts:98-105 | the copy holds exactly the secrets given, under exactly their keys |
| `CredentialMaterial.Copy` | packages/api-nova-parser/src/credentials/host-credential-generations.ts:95-118 | material is accepted if and only if all of its providers, keys, secrets and Basic pairs are valid and within the limits |
| `CredentialGenerations.CloseKeeps` | packages/api-nova-parser/src/credentials/host-credential-generations.ts:66-70 | a closed store holds no live entry and no byte |
| `CredentialGenerations.InspectExactly` | packages/api-nova-parser/src/credentials/host-credential-generations.ts:86-93 | a handle passes if and only if it is its entry's present one and the entry is live and not yet due; nothing changes then |
| `CredentialGenerations.StageExactly` | packages/api-nova-parser/src/credentials/host-credential-generations.ts:95-122 | staging succeeds if and only if the store is open, the material valid and both capacities have room; the entry holds exactly the secrets given |
| `CredentialGenerations.CaptureIsCurrent` | packages/api-nova-parser/src/credentials/host-credential-generations.ts:129-129 | what is captured is the current generation, in force |
| `CredentialGenerations.ReleaseKeeps` | packages/api-nova-parser/src/credentials/host-credential-generations.ts:134-137 | a released entry is live no more |
| `CredentialGenerations.ActivateIsCas` | packages/api-nova-parser/src/credentials/host-credential-generations.ts:123-128 | activation succeeds if and only if the expected generation is current and the entry staged, live and heard without a listener fault |
| `CredentialGenerations.EveryRun` | packages/api-nova-parser/src/credentials/host-credential-generations.ts:41-143 | over every run totalBytes is the sum over the retained entries, both capacities hold, and every entry that is not staged or active is wiped |
| `CredentialGenerations.RunEvolves` | packages/api-nova-parser/src/credentials/host-credential-generations.ts:55-65 | an entry that leaves staged and active never returns; a live one keeps its material |
| `CredentialGenerations.ResolveExactly` | packages/api-nova-parser/src/credentials/host-credential-generations.ts:131-131 | resolve answers if and only if the generation is active, not due, and holds that key |
| `CredentialGenerations.ResolveIsStaged` | packages/api-nova-parser/src/credentials/host-credential-generations.ts:95-131 | after any run a resolved secret is the one staged under that key, before its expiry |
| `CredentialGenerations.WithdrawnForGood` | packages/api-nova-parser/src/credentials/host-credential-generations.ts:132-133 | a generation revoked or made unavailable never resolves again |
| `GenerationLives.LivesExactly` | packages/api-nova-parser/src/credentials/host-credential-generations.ts:55-143 | an entry that lived at some moment lives at the end of a run, with the same material, if and only if no step was its own expiry, withdrawal or release, or a fault or closing that ends them all |
| `GenerationLives.CurrentExactly` | packages/api-nova-parser/src/credentials/host-credential-generations.ts:66-128 | the current generation changes only when another is activated in its place; a closed store has none |
| `CredentialGenerations.Store.StageMaterial` | packages/api-nova-parser/src/credentials/host-credential-generations.ts:95-122 | validation, then both capacities, then registration |
| `CredentialGenerations.Store.ActivateStaged` | packages/api-nova-parser/src/credentials/host-credential-generations.ts:123-128 | compare, inspect, promote, publish |
| `CredentialGenerations.Store.WithdrawGeneration` | packages/api-nova-parser/src/credentials/host-credential-generations.ts:132-133 | wipe, expire if due, publish; the entry is not live afterwards |
| `CredentialGenerations.Store.ReleaseEntry` | packages/api-nova-parser/src/credentials/host-credential-generations.ts:134-137 | release of a staged or activated entry, once |
| `CredentialGenerations.Store.CloseStore` | packages/api-nova-parser/src/credentials/host-credential-generations.ts:66-70 | the loop wipes every retained entry |
| `CredentialGenerations.Store.Check` | packages/api-nova-parser/src/credentials/host-credential-generations.ts:86-93 | inspection, expiring on the way |
| `CredentialGenerations.Store.ExpireEntry` | packages/api-nova-parser/src/credentials/host-credential-generations.ts:81-85 | a due entry is wiped and removed |
| `CredentialGenerations.Store.ResolveSecret` | packages/api-nova-parser/src/credentials/host-credential-generations.ts:131-131 | lookup behind the inspection |
| `ProviderEvidence.BoundKeeps` | packages/api-nova-parser/src/credentials/registry-provider-evidence.ts:27-35 | a snapshot is vouched for if and only if it is bound, serves the source, and its generation is in force |
| `ProviderEvidence.IssueKeeps` | packages/api-nova-parser/src/credentials/registry-provider-evidence.ts:42-49 | a proof is issued if and only if its snapshot is vouched for, it is to last a minute at most, and fewer than 1024 are live; it does not outlast its generation |
| `ProviderEvidence.UnspentExactly` | packages/api-nova-parser/src/credentials/registry-provider-evidence.ts:48-86 | a proof stays live, unaltered, if and only if no later step presented it, timed it out or closed the issuer |
| `ProviderEvidence.ConsumeExactly` | packages/api-nova-parser/src/credentials/registry-provider-evidence.ts:70-82 | a proof is accepted if and only if it is unspent and unexpired, all of its context matches, and its own generation is in force; it is spent either way |
| `ProviderEvidence.SpentForGood` | packages/api-nova-parser/src/credentials/registry-provider-evidence.ts:70-73 | a proof presented once is never accepted later |
| `ProviderEvidence.ActiveThroughout` | packages/api-nova-parser/src/credentials/registry-provider-evidence.ts:42-82 | an accepted proof's generation was active at every moment since the proof was issued |
| `ProviderEvidence.Evidence.Describe` | packages/api-nova-parser/src/credentials/registry-provider-evidence.ts:27-35 | closing, binding and generation faults |
| `ProviderEvidence.Evidence.IssueProof` | packages/api-nova-parser/src/credentials/registry-provider-evidence.ts:42-49 | issuing against the store |
| `ProviderEvidence.Evidence.ConsumeProof` | packages/api-nova-parser/src/credentials/registry-provider-evidence.ts:70-82 | consuming against the store; the proof is unknown afterwards |
| `ProviderEvidence.Evidence.CloseIssuer` | packages/api-nova-parser/src/credentials/registry-provider-evidence.ts:83-86 | closing forgets snapshots and proofs |
| `SiteSelection.AcceptsExactly` | packages/api-nova-parser/src/credentials/schema.ts:245-257 | the one-pass check accepts a list if and only if every site is well formed and no two share their id or their asset and match |
| `SiteSelection.ValidateSites` | packages/api-nova-parser/src/credentials/schema.ts:245-290 | the loop with its three running collections decides that and returns the normalized sites |
| `SiteSelection.ValidateEndpoints` | packages/api-nova-parser/src/credentials/schema.ts:261-284 | endpoints are accepted if and only if each is well formed, selectors differ and the limits hold |
| `SiteSelection.WithinExactly` | packages/api-nova-parser/src/credentials/resolver.ts:96-98 | a path is within a base path if and only if the segments of the base lead the segments of the path |
| `SiteSelection.ServesExactly` | packages/api-nova-parser/src/credentials/resolver.ts:105-111 | a site serves a target if and only if asset, scheme, host and port agree, the host is allowed, and its base path leads to the target segment by segment |
| `SiteSelection.ResolverTakesLongest` | packages/api-nova-parser/src/credentials/resolver.ts:100-115 | for any list the resolver takes, of the sites that so cover the target, one of maximal base path, and none only when none covers it |
| `SiteSelection.OneLongest` | packages/api-nova-parser/src/credentials/resolver.ts:100-115 | in a validated list at most one serving site has maximal base path |
| `SiteSelection.SharedSelectorTies` | packages/api-nova-parser/src/network/trusted-redirect-target.ts:28-35 | two sites with one selector tie on the target made of that selector |
| `SiteSelection.UnambiguousExactly` | packages/api-nova-parser/src/network/trusted-redirect-target.ts:28-35 | the redirect selector is unambiguous on every target if and only if no two sites share asset and match |
| `SiteSelection.SameTargetAgrees` | packages/api-nova-parser/src/network/trusted-redirect-target.ts:28-35 | on one and the same target of a validated candidate the redirect selector picks the resolver's site |
| `SiteSelection.RedirectAgreesExactly` | packages/api-nova-parser/src/network/trusted-redirect-target.ts:28-35 | for one URL the two pick the same site if and only if its host is no IPv6 literal or no site serves it as the redirect selector reads it |
| `SiteSelection.EveryLiteralCanBeMissed` | packages/api-nova-parser/src/credentials/resolver.ts:93-112 | for every IPv6 literal, [::1] among them, there is a validated site that the redirect selector finds and the resolver does not |
| `HostNames.SiteHostChars` | packages/api-nova-parser/src/credentials/schema.ts:107-116 | a configured host that passes has letters, digits, dots, dashes and colons only, so no bracket |
| `HostNames.NameExactly` | packages/api-nova-parser/src/credentials/schema.ts:107-116 | a host that is no address passes if and only if it is a host name of at most 253 characters, in any case, with or without the final dot; it is kept in lower case without it |
| `HostNames.ReadingIsSiteHost` | packages/api-nova-parser/src/network/network-policy.ts:35-40 | what the redirect selector reads of any IPv6 literal is a host that can be configured |
| `SiteSelection.OrderIsIrrelevant` | packages/api-nova-parser/src/credentials/resolver.ts:112-114 | the choice does not depend on the order of the sites |
| `SiteSelection.EndpointIsReached` | packages/api-nova-parser/src/credentials/resolver.ts:117-146 | each endpoint is found by its own selector and only inherits when it says so |
| `IpAddress.ScanFindsFirstLongest` | packages/api-nova-parser/src/network/address-policy.ts:19-20 | the scan finds the first longest run of zeros, of length two or more (sections 4.2.2 and 4.2.3 of RFC 5952) |
| `IpAddress.FirstLongestIsUnique` | packages/api-nova-parser/src/network/address-policy.ts:19-20 | there is only one such run |
| `IpAddress.PrintV6` | packages/api-nova-parser/src/network/address-policy.ts:17-22 | the nested loops print the specified text |
| `IpAddress.V6TextIsPlain` | packages/api-nova-parser/src/network/address-policy.ts:17-22 | no group has a leading zero and letters are lower case (sections 4.1 and 4.3 of RFC 5952) |
| `IpAddress.GroupsOfRender` | packages/api-nova-parser/src/network/address-policy.ts:21-38 | whichever run of zeros is compressed, parsing gives the groups back |
| `IpAddress.ParseOfV6Text` | packages/api-nova-parser/src/network/address-policy.ts:17-45 | parsing the text of any 128-bit value gives it back, an IPv4-mapped one as the IPv4 address |
| `IpAddress.ParseOfV4Text` | packages/api-nova-parser/src/network/address-policy.ts:26-30 | parsing the text of any 32-bit value gives it back |
| `IpAddress.ParsedIsWellFormed` | packages/api-nova-parser/src/network/address-policy.ts:23-45 | what parses has its family's range and the canonical text of its value |
| `IpAddress.CanonicalParsesBack` | packages/api-nova-parser/src/network/address-policy.ts:23-45 | a canonical text parses to the same family and value |
| `IpAddress.CanonicalIsInjective` | packages/api-nova-parser/src/network/address-policy.ts:23-45 | canonical texts are equal if and only if family and value are |
| `AddressSpellings.FullIsRead` | packages/api-nova-parser/src/network/address-policy.ts:37-39 | eight groups in full spell their number, leading zeros or not |
| `AddressSpellings.CompressedIsRead` | packages/api-nova-parser/src/network/address-policy.ts:37-39 | a double colon stands for as many zero groups as are missing, one at least, wherever it stands |
| `AddressSpellings.QuadIsTwoGroups` | packages/api-nova-parser/src/network/address-policy.ts:33-36 | a dotted quad at the end reads as its upper and its lower sixteen bits |
| `AddressSpellings.CaseIsIrrelevant` | packages/api-nova-parser/src/network/address-policy.ts:32-32 | letters are read in either case |
| `AddressSpellings.ParsedIsSpelled` | packages/api-nova-parser/src/network/address-policy.ts:24-39 | a text without a dot that parses is eight groups in full, or seven at most around a double colon |
| `AddressSpellings.DottedEndsInQuad` | packages/api-nova-parser/src/network/address-policy.ts:33-36 | an IPv6 text with a dot that parses ends in a dotted quad after a colon |
| `AddressRanges.NestedOrDisjoint` | packages/api-nova-parser/src/network/address-policy.ts:46-70 | two CIDR blocks are nested or disjoint |
| `AddressRanges.CidrRoundTrip` | packages/api-nova-parser/src/network/address-policy.ts:46-56 | the canonical text of a parsed range parses to that range |
| `AddressClasses.CidrExactly` | packages/api-nova-parser/src/network/address-policy.ts:46-56 | an address text with a prefix is read if and only if the prefix exists for its family, less 96 for an IPv4-mapped text, and the address has no bit beyond it |
| `AddressRanges.TableIsOrdered` | packages/api-nova-parser/src/network/address-policy.ts:57-68 | the 36 rows are aligned blocks, ordered so that the more specific comes first |
| `AddressTable.Row4IsItsText` | packages/api-nova-parser/src/network/address-policy.ts:57-63 | every IPv4 row is what its text parses to, octet for octet as the source writes it |
| `AddressTable.Row6IsItsText` | packages/api-nova-parser/src/network/address-policy.ts:63-68 | every IPv6 row is what its text parses to, group for group |
| `AddressRanges.FirstMatchIsLongestPrefix` | packages/api-nova-parser/src/network/address-policy.ts:71-77 | in any table so ordered the first match is the longest prefix |
| `AddressRanges.TableMatchIsLongestPrefix` | packages/api-nova-parser/src/network/address-policy.ts:71-77 | so classification is longest-prefix match |
| `AddressClasses.ClassifyExactly` | packages/api-nova-parser/src/network/address-policy.ts:71-77 | an ISATAP address is transitional; any other has the class of the most specific row that holds it, and without one is public exactly when IPv4 or of 2000::/3 |
| `AddressClasses.SomeRowIsMostSpecific` | packages/api-nova-parser/src/network/address-policy.ts:71-77 | whenever some row holds an address one of them is most specific |
| `AddressClasses.ExceptionExactly` | packages/api-nova-parser/src/network/address-policy.ts:79-86 | a text is accepted as an exception range if and only if it parses to a public range clear of the table, a range within a private row that meets no other, or a single loopback address |
| `AddressRanges.ExceptionIsUniform` | packages/api-nova-parser/src/network/address-policy.ts:79-86 | an accepted exception range has one class throughout, ISATAP forms aside |
| `NetworkPolicy.Compiler.CompilePolicy` | packages/api-nova-parser/src/network/network-policy.ts:83-106 | walks the exception addresses and the denied destinations, accepts exactly the policies that pass the compile-time checks, and registers them |
| `NetworkPolicy.FiltersRemoveOnlyIsatap` | packages/api-nova-parser/src/network/network-policy.ts:124-126 | inside a compiled exception range the run-time filters remove ISATAP forms only |
| `NetworkDecisions.ExceptionIsExact` | packages/api-nova-parser/src/network/network-policy.ts:83-132 | a compiled exception policy admits an address if and only if target and time window match, one of its ranges holds it and it is not ISATAP; an address-literal host and an endpoint list narrow that, nothing else does |
| `NetworkDecisions.PublicIsExact` | packages/api-nova-parser/src/network/network-policy.ts:117-132 | a public policy admits an address if and only if the target matches and it is ordinary, in no row of the table, not ISATAP, not a metadata service and held by no deny entry that covers the port; a literal host and an endpoint list narrow that |
| `NetworkDecisions.DeniedIsNeverAdmitted` | packages/api-nova-parser/src/network/network-policy.ts:124-124 | under any policy an address held by a deny entry is refused on every port the entry lists, or on all if it lists none, and a metadata service always |
| `NetworkDecisions.CompilesExactly` | packages/api-nova-parser/src/network/network-policy.ts:83-106 | a policy compiles if and only if it has no exception, or one for its own source, site and origin, in force for 30 days at most, with 1 to 128 acceptable ranges clear of the metadata services and of every deny entry that covers the port |
| `NetworkDecisions.OtherPortsDenyNothing` | packages/api-nova-parser/src/network/network-policy.ts:98-124 | an entry that lists only other ports denies nothing, at compile time or at run time |
| `NetworkPolicy.PublicNeverReachesSpecial` | packages/api-nova-parser/src/network/network-policy.ts:117-132 | a public policy admits no special-purpose, denied or metadata address |
| `AuditQueue.GrowIsBatch` | packages/api-nova-parser/src/audit/runtime-call-audit.ts:400-405 | the inner loop stops at the longest admissible batch |
| `AuditQueue.BatchIsMaximal` | packages/api-nova-parser/src/audit/runtime-call-audit.ts:400-405 | a batch ends only where the queue does, at 128 records, before a record for another file, or before one that would make it exceed 256 KiB |
| `AuditQueue.TakeBatch` | packages/api-nova-parser/src/audit/runtime-call-audit.ts:396-407 | one turn of the pump takes that batch off the queue |
| `AuditQueue.ReleaseBatch` | packages/api-nova-parser/src/audit/runtime-call-audit.ts:449-454 | one write and one reservation per item are given back |
| `AuditQueue.EveryRunFits` | packages/api-nova-parser/src/audit/runtime-call-audit.ts:245-527 | in every interleaving captured plus pending bytes stay within the budget, at most 4096 writes are pending, and a non-empty queue has a pump |
| `AuditQueue.EveryRunBatches` | packages/api-nova-parser/src/audit/runtime-call-audit.ts:396-407 | every batch is for one file, at most 128 records, over 256 KiB only as a single record |
| `AuditQueue.EveryRunOrders` | packages/api-nova-parser/src/audit/runtime-call-audit.ts:395-457 | batches followed by the queue are the admission order |
| `AuditQueue.EveryRunCounts` | packages/api-nova-parser/src/audit/runtime-call-audit.ts:423-454 | the written and I/O-failed counters are the sizes of the batches so ended, and drops plus admissions are the submissions |
| `AuditQueue.EveryRunAdmits` | packages/api-nova-parser/src/audit/runtime-call-audit.ts:469-518 | the admitted items are those of the admitted submissions, in order |
| `AuditQueue.AdmittedOnce` | packages/api-nova-parser/src/audit/runtime-call-audit.ts:497-517 | a submission is among them exactly when admitted, and then once |
| `AuditQueue.FlushDrains` | packages/api-nova-parser/src/audit/runtime-call-audit.ts:520-527 | when a flush returns nothing is pending |
| `AuditQueue.FlushWritesInOrder` | packages/api-nova-parser/src/audit/runtime-call-audit.ts:520-527 | what was handed to the log is then the admitted submissions in order, once each |
| `AuditQueue.FlushCountsAll` | packages/api-nova-parser/src/audit/runtime-call-audit.ts:520-527 | every submission is then counted exactly once as written, I/O-failed or dropped |
| `AuditQueue.NothingLeaks` | packages/api-nova-parser/src/audit/runtime-call-audit.ts:245-454 | with all trackers finished and a flush returned the whole budget is free |
| `AuditQueue.SubmitExactly` | packages/api-nova-parser/src/audit/runtime-call-audit.ts:485-517 | in every run a record is admitted if and only if it serializes, fewer than 4096 are pending and it fits the budget that is left, in full or else without bodies; it is queued so, and otherwise the counter of the first obstacle goes up |
| `AuditQueue.ObserveExactly` | packages/api-nova-parser/src/audit/runtime-call-audit.ts:263-278 | in every run a chunk is kept, at three times its length, if and only if nothing of the body was omitted, it is within its limit, bodies may be captured and the budget has room; else the body gives back all it held |
| `AuditQueue.FinishExactly` | packages/api-nova-parser/src/audit/runtime-call-audit.ts:279-319 | a finished body holds nothing and takes no chunk any more |
| `AuditQueue.AuditWriter.WriteRuntimeCall` | packages/api-nova-parser/src/audit/runtime-call-audit.ts:469-518 | stripping, the three drops and admission |
| `AuditQueue.AuditWriter.ScheduleDrain` | packages/api-nova-parser/src/audit/runtime-call-audit.ts:459-467 | one pump at a time |
| `AuditQueue.AuditWriter.DrainTurn` | packages/api-nova-parser/src/audit/runtime-call-audit.ts:395-407 | one turn of the pump |
| `AuditQueue.AuditWriter.FinishBatch` | packages/api-nova-parser/src/audit/runtime-call-audit.ts:449-456 | release and the next turn |
| `AuditQueue.AuditWriter.ObserveChunk` | packages/api-nova-parser/src/audit/runtime-call-audit.ts:263-278 | reservation, or omission that gives everything back |
| `AuditSummary.CallHandle.AssignOrigin` | packages/api-nova-server/src/tools/mcp-http-audit.ts:126-132 | the live record that the handle exposes is written from outside, with no record emitted |
| `AuditSummary.CallHandle.Emit` | packages/api-nova-parser/src/audit/runtime-call-audit.ts:364-391 | one record per report, none after the finish; its origin is the one the report names, else the live record's |
| `AuditSummary.EveryRun` | packages/api-nova-parser/src/audit/runtime-call-audit.ts:342-392 | strictly increasing versions, at most one finished record and that one last; activeCalls is the number of open calls |
| `AuditSummary.LatestIsMaximal` | packages/api-nova-parser/src/audit/runtime-observability-contract.ts:279-283 | the record kept for an invocation has its highest version |
| `AuditSummary.DeliveryFindsLatest` | packages/api-nova-parser/src/audit/runtime-observability-contract.ts:279-283 | in any order and with any re-delivery the last record of each call is found |
| `AuditSummary.DeliveryIsIrrelevant` | packages/api-nova-parser/src/audit/runtime-observability-contract.ts:279-284 | two deliveries of one log summarise alike |
| `AuditSummary.LatestRecords` | packages/api-nova-parser/src/audit/runtime-observability-contract.ts:279-283 | the loop computes that map |
| `AuditSummary.CountRows` | packages/api-nova-parser/src/audit/runtime-observability-contract.ts:284-298 | in-flight rows plus outcomes are the rows, each outcome counted exactly |
| `AuditSummary.Summarize` | packages/api-nova-parser/src/audit/runtime-observability-contract.ts:277-330 | starts = in-flight + knownCompleted + unknown, each count exact |
| `AuditSummary.OutcomeExactly` | packages/api-nova-parser/src/audit/runtime-observability-contract.ts:169-183 | each outcome of a finished row under exactly its own conditions; an unfinished row has none |
| `AuditSummary.StartsMatchCalls` | packages/api-nova-parser/src/audit/runtime-observability-contract.ts:266-330 | business plus protocol plus upstream starts of an origin are the calls whose last record carries that origin |
| `AuditSummary.ScopesMatchCalls` | packages/api-nova-parser/src/audit/runtime-observability-contract.ts:266-275 | scope by scope, the rows counted over any delivery are exactly the calls of the kinds that belong to it |
| `AuditSummary.StartsMatchBegun` | packages/api-nova-parser/src/audit/runtime-call-audit.ts:364-391 | at all moments of a run every summary counts, for each origin, the calls begun with it, if and only if no report on an unfinished call was written with another origin than it began with, be it named by the report or assigned to the record before |
| `AuditSummary.OriginReplaced` | packages/api-nova-parser/src/audit/runtime-call-audit.ts:364-371 | a finish report that names another origin moves its call to that origin's count |
| `AuditSummary.OriginAssigned` | packages/api-nova-parser/src/audit/runtime-call-audit.ts:364-381 | a report that names no origin moves its call after another origin was assigned to the record |
| `AuditSummary.InFlightMatchesActive` | packages/api-nova-parser/src/audit/runtime-call-audit.ts:362-385 | in-flight totals over all origins are activeCalls |
| `AuditSummary.PendingByScope` | packages/api-nova-parser/src/audit/runtime-observability-contract.ts:266-275 | the in-flight counts of the three scopes add up to an origin's open calls |
| `Graph.WalkDescends` | scripts/build.js:85-89 | along a walk an order in which successors come first only descends |
| `Graph.DescendingIsAcyclic` | scripts/build.js:75-93 | such an order excludes every cycle |
| `BuildOrder.BuildDependencyGraph` | scripts/build.js:47-68 | one node a name, first position and last value |
| `BuildOrder.Sorter.Visit` | scripts/build.js:75-93 | depth-first search: throws only with a cycle in hand, else finishes every dependency before the package |
| `BuildOrder.TopologicalSort` | scripts/build.js:70-100 | throws if and only if the graph has a cycle; otherwise each package once, after its dependencies, filtered to the buildable |
| `BuildOrder.BuildsAfterDependencies` | scripts/build.js:70-100 | after filtering a package still follows all its transitive buildable dependencies |
| `BuildOrder.FilterIsComplete` | scripts/build.js:99-99 | the filter keeps exactly the buildable packages |
| `BuildOrder.OrderBuilds` | scripts/build.js:47-100 | from a list of packages: throws if and only if it is circular; otherwise each buildable package once, after all buildable packages it depends on, directly or not |
| `SchemaCycles.CycleFinder.Dfs` | packages/api-nova-parser/src/extractors/schema-extractor.ts:219-242 | records simple closed walks only, and one whenever it meets its own stack |
| `SchemaCycles.FindCircularDependencies` | packages/api-nova-parser/src/extractors/schema-extractor.ts:213-251 | every list is a simple closed walk of the graph, and the result is empty if and only if the graph is acyclic, dangling references included |
| `ToolNames.GeneratedIsName` | packages/api-nova-parser/src/transformer/index.ts:498-521 | every generated name has 1 to 64 permitted characters |
| `ToolNames.CleanIdIsKept` | packages/api-nova-parser/src/transformer/index.ts:500-510 | an operation id that needs no cleaning is the name |
| `ToolNames.NameIsWords` | packages/api-nova-parser/src/transformer/index.ts:498-521 | a name is the words of the operation id joined by underscores, or without any the method and the words of the path, braces apart, cut after 64 characters |
| `ToolNames.HashVectors` | packages/api-nova-parser/src/transformer/index.ts:242-243 | the hash meets the published values of 32-bit FNV-1a |
| `ToolNames.CandidateIsName` | packages/api-nova-parser/src/transformer/index.ts:242-247 | a candidate is permitted and fits 64 characters up to ten digits |
| `ToolNames.CandidateKeeps` | packages/api-nova-parser/src/transformer/index.ts:244-247 | the first candidate keeps the whole name if that fits with the suffix in 64 characters, else as much of it as does |
| `ToolNames.CandidatesDiffer` | packages/api-nova-parser/src/transformer/index.ts:245-247 | different sequence numbers give different candidates |
| `ToolNames.FreshName` | packages/api-nova-parser/src/transformer/index.ts:245-247 | the retry loop ends, at the first candidate that is free |
| `ToolNames.GroupByName` | packages/api-nova-parser/src/transformer/index.ts:235-236 | groups in order of first appearance hold exactly the places of each name |
| `ToolNames.Deduplicate` | packages/api-nova-parser/src/transformer/index.ts:234-251 | afterwards all names differ, unique ones are unchanged, and each other has become its first candidate not taken by any old or new name |
| `ToolNames.FinalNamesFit` | packages/api-nova-parser/src/transformer/index.ts:234-251 | below 4,999,999,999 tools every final name has at most 64 permitted characters |
| `RedirectChain.KeyIsExact` | packages/api-nova-parser/src/network/redirect-chain-state.ts:15-18 | well-formed texts share a key if and only if they differ only in escape case and in escaping unreserved characters (section 6.2.2 of RFC 3986) |
| `RedirectChain.KeyIsIdempotent` | packages/api-nova-parser/src/network/redirect-chain-state.ts:15-18 | on well-formed texts the key is its own key |
| `RedirectChain.IdempotentExactly` | packages/api-nova-parser/src/network/redirect-chain-state.ts:15-18 | on any text the key is its own key if and only if no character outside an escape completes, in the key, an escape that is unreserved or has a lower-case digit |
| `RedirectChain.KeySaysAllExactly` | packages/api-nova-parser/src/network/redirect-chain-state.ts:15-18 | texts whose stray characters complete no escape the key keeps share a key if and only if they say the same; any other text shares its key with one of these that says something else |
| `RedirectChain.StrayPercentBreaksKey` | packages/api-nova-parser/src/network/redirect-chain-state.ts:15-18 | two texts with a stray percent sign on which idempotence and exactness fail |
| `RedirectChain.EveryRun` | packages/api-nova-parser/src/network/redirect-chain-state.ts:36-69 | at most five hops, visited keys pairwise distinct and hop + 1 of them, never from https back to http |
| `RedirectChain.TrailSaysDifferent` | packages/api-nova-parser/src/network/redirect-chain-state.ts:57-65 | no two URLs of a chain say the same |
| `RedirectChain.InspectsExactly` | packages/api-nova-parser/src/network/redirect-chain-state.ts:41-61 | a response is returned if and only if it does not redirect or the chain does not follow; it is followed if and only if fewer than five hops are behind and its location leads, not from https to http, to a new key; anything else fails for good |
| `RedirectChain.AdvancesExactly` | packages/api-nova-parser/src/network/redirect-chain-state.ts:62-67 | a chain advances if and only if it is open and is handed the very decision pending, whose URL still normalizes |
| `RedirectChain.CreatesExactly` | packages/api-nova-parser/src/network/redirect-chain-state.ts:24-36 | a chain follows redirects if and only if it is a safe read by GET or HEAD without a body |
| `RedirectChain.ClosedForGood` | packages/api-nova-parser/src/network/redirect-chain-state.ts:39-68 | after a failure, a returned response or a close nothing is followed |
| `RedirectChain.Chain.InspectResponse` | packages/api-nova-parser/src/network/redirect-chain-state.ts:41-61 | the decision and the state it leaves |
| `RedirectChain.Chain.AdvanceTo` | packages/api-nova-parser/src/network/redirect-chain-state.ts:62-67 | only the pending decision advances the chain |
| `RedirectChain.Chain.Close` | packages/api-nova-parser/src/network/redirect-chain-state.ts:68-68 | closing drops the pending decision |
| `ConfigOverrides.EveryRun` | packages/api-nova-api/src/config/app-config.service.ts:448-550 | after any updates, imports and reloads, failed ones included, the overrides in memory equal the stored rows, and every row is one an import accepts |
| `ConfigOverrides.UpdateFieldExactly` | packages/api-nova-api/src/config/app-config.service.ts:1223-1260 | a value is stored if and only if it is acceptable, the database works and the field has no override yet; otherwise nothing changes |
| `ConfigOverrides.SecondUpdateThrows` | packages/api-nova-api/src/config/app-config.service.ts:1243-1253 | two good updates of one field with a working database: the second throws and the first value stays |
| `ConfigOverrides.ClearFieldExactly` | packages/api-nova-api/src/config/app-config.service.ts:1223-1239 | an empty text removes an editable field's override and only that |
| `ConfigOverrides.AcceptableExactly` | packages/api-nova-api/src/config/app-config.service.ts:1197-1203 | a value suits a field if and only if it is of its kind, finite, not empty and, for the two URL fields, a URL or white space |
| `ConfigOverrides.ImportExactly` | packages/api-nova-api/src/config/app-config.service.ts:498-550 | an import is accepted if and only if its version is known, every record is for an editable field as the table has it with a value that suits, no two are for one variable and the database works; memory then holds exactly the values imported, and otherwise nothing changes |
| `ConfigOverrides.ImportRestartsExactly` | packages/api-nova-api/src/config/app-config.service.ts:521-530 | in every reachable state an import names for restart exactly the fields that need one and whose override it changes |
| `ConfigOverrides.ExportReproduces` | packages/api-nova-api/src/config/app-config.service.ts:637-658 | the export of any reachable state is importable into any other and reproduces the first |
| `ConfigOverrides.PreviewIsImport` | packages/api-nova-api/src/config/app-config.service.ts:579-635 | in every reachable state the preview's conflicts, applied to the overrides, give exactly the imported ones, with the same restart-required keys |
| `ConfigOverrides.ConfigService.Reload` | packages/api-nova-api/src/config/app-config.service.ts:452-458 | memory becomes the stored values |
| `ConfigOverrides.ConfigService.Records` | packages/api-nova-api/src/config/app-config.service.ts:475-491 | the current records in the order of the field table |
| `ConfigOverrides.ConfigService.ValidateImport` | packages/api-nova-api/src/config/app-config.service.ts:498-519 | accepted if and only if version, fields, kinds, values and distinctness are right; records are rebuilt from the field table |
| `ConfigOverrides.ConfigService.RestartKeys` | packages/api-nova-api/src/config/app-config.service.ts:522-530 | the restart-required keys an import reports |
| `ConfigOverrides.ConfigService.ImportConfig` | packages/api-nova-api/src/config/app-config.service.ts:521-550 | one transaction replaces all known rows and then memory; a failure changes neither |
| `ConfigOverrides.ConfigService.PreviewImport` | packages/api-nova-api/src/config/app-config.service.ts:579-635 | the conflicts and restart-required keys of a preview |
| `ConfigOverrides.ConfigService.UpdateConfig` | packages/api-nova-api/src/config/app-config.service.ts:1205-1260 | fields one by one up to the first that throws |

## Left out

- PersistenceFence: which SQL text changes persistent state is an argument of the query step; the flushes that `startTransaction` awaits are callers like any others; the lane around the runner is a model of its own.
- HeaderPolicy: the identity hash and source id of a compiled policy, and consumer authentication names, which the source treats like historical ones.
- HeaderLedger: the format checks of namespace and digest, and a database that applies a write but reports a failure.
- CredentialRegistry: file and secret reads succeed or fail as a whole; the watcher's debouncing is the caller that may forbid a commit; observers of a commit are not modelled.
- OperationAuthority: abort listeners that call back into the authority, header and context checks of a captured operation, and timers, which are stop steps.
- HostEpochs: listeners that call back while an activation is being stopped; the provider epoch, which changes together with the security epoch.
- CredentialGenerations: listeners that call back into the store; the wall and the monotonic clock are one clock.
- ProviderEvidence: abort signals, and the run nonce, which is constant for one issuer.
- CredentialMaterial: the shape checks on JavaScript objects and Unicode well-formedness, which Dafny's characters imply.
- SiteSelection: identifier syntax, credentials and header policies of a site, and which of several faults is reported; letter case is that of ASCII, and a URL that only one of the two selectors accepts.
- NetworkPolicy: URL parsing and the identity hash.
- AuditQueue: the separate append of caller lines, directories and manifests; bodies are sizes.
- AuditSummary: byte, caller and retry statistics, and the classification of error codes beyond "timeout".
- BuildOrder: the `dependents` arrays, which nothing reads.
- SchemaCycles: schema names that are properties of every JavaScript object.
- ToolNames: the order in which operations are read from an API description, and their filters.
- RedirectChain.EveryRun: requires that a normalized URL, normalized again, comes back unchanged or is rejected (`packages/api-nova-parser/src/network/network-policy.ts:27-51` rejects one that has grown beyond 4096 characters), because the URL parser it calls is foreign code.
- RedirectChain.TrailSaysDifferent: requires the same of the normalizer.
- ToolNames.FinalNamesFit: bounds the number of tools, because an eleventh digit of the sequence number makes a name of 65 characters.
- ConfigOverrides.ExportReproduces: requires distinct keys in the field table, because the table is a parameter; that they are distinct is shown of a table of two of the 33 fields.
- ConfigOverrides: the sorting of exported records, any order being covered; audit rows, which can only make a call throw; backups, which are an export and an import.
- Sockets, TLS, DNS, HTTP, command line, user interface and server wiring.
