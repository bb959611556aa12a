# Ultraviolet, verified

Ultraviolet is a reverse proxy for Minecraft. It accepts connections on one address, looks up which backend server a
client asked for, decides what to do with the connection and passes it on. This project models the parts of it where
correctness spans several functions or whole runs, and proves what they promise.

**Live reload.** `BackendManager.Update` compares the config files with what it stored, edits four maps that have to
agree (stored configs, owner per domain, backend per id, and the catalog every worker looks servers up in), and closes
backends that are gone. `ServerConfigs` is the check that a list of configs is usable together, `ConfigErrors` what it
complains about; the theorems about routes are about lists that pass it and whose ids, which are file paths, differ.
`Reload` states the reconciliation on values, for any iteration order of the Go maps; `BackendManagers` runs it on
objects and is proved against it. `ReloadRoutes` says when tables agree and which single updates are right.
`ReloadByDomain` follows one domain through a whole load and gives the exact condition under which a load leaves the
routes of a from-scratch build, whichever versions are stored and in force. `ReloadRuns` covers whole runs of loads,
as the code is written and for a variant that also stores the config it applied. `ReloadCases` shows runs in which the
code as written fails.

**Drain before close.** `ReloadScript` proves that a reload never closes a backend before every worker has been told
of a catalog without it. `DrainProtocol` is the step relation of the manager, any number of worker loops, goroutines
and backend loops; `DrainTheorems` holds for every interleaving of its steps. `DrainExact` has the exact condition for
a list to drain, with a failing behaviour where it does not hold, `DrainPushes` shows that every worker is told of
every change, and `DrainRuns` chains the loads of a run. `ReloadSettings` says which version of its config a backend
works with.

**Admission.** `ConnLimiter` (with `WindowBound`) models the absolute limiter and the bot filter, `LimiterHistory`
says in terms of the logins before whom the filter lets through, `Caches` the status cache and the server state agent,
`BackendWorker` the decision a backend takes with them, `BackendRuns` runs of such decisions, `ActiveConns` the count
of proxied connections. The goroutine that `ActiveConns` counts is started in `ProcessAnswer`
(`worker/worker.go:192-226`), which at present only the tests of package `worker` call. Time is an argument of every
call.

**Wire formats.** `Leb128`, `McType`, `McPacket` and `McHandshake` model the codec of package `mc`: VarInt (unsigned
LEB128, DWARF 5, section 7.6, over the two's complement pattern), length-prefixed packets, and four handshake
decoders. `SrcCodec` is the second codec of package `src`, `SrcCuts` what it makes of input that ends too early.
`RealIp` rewrites addresses, `GoStrings` is what they need of Go's string library, `BedrockStatus` the status line of
a Bedrock server.

Code that changes state is modelled by classes and loops; each method is proved equal to a function on values, and the
theorems are about those functions.

## What turned out different from what one would expect

- `updateConfig` never stores the new config, so later comparisons use the version with which an id first appeared.
  `ReloadRuns.AsWrittenRunExact` says for which runs the routes stay right nevertheless; `ReloadCases.StaleDomain`
  gives a short run that leaves a stale route, and one that leads to a closed backend.
- A domain that moves between two configs which both survive can be lost, depending on map iteration order:
  `ReloadByDomain.ReloadExact` (per order), `ReloadByDomain.ReloadEveryOrderExact` (all orders),
  `ReloadRuns.NextListExact` (after a run), `ReloadCases.MovedDomain`.
- The goroutine that proxies a connection asks its backend a second time and is not waited for:
  `DrainTheorems.ProxyGoroutineMeetsClosed`. `DrainTheorems.CloseStrandsExact` says when a close leaves one behind. In the program a
  send on the closed channel (`worker/backend.go:372`) panics and ends the process; the model leaves the sender where it is.
- A removed config that has grown since it was first added keeps a route to its closed backend, and a worker can follow
  it: `DrainExact.NextDrainsExact`, `DrainExact.UnsafeBehaviour`.
- Rolling a config back to its first version is ignored, whatever had changed in it: `ReloadSettings.SettingsExact`.
- The call at `worker/backend.go:54` passes the unverify and the ban duration in the opposite order of the constructor
  at `module/conn_limiter.go:59`. The model uses the constructor's names; `ConnLimiter.BanAsConfiguredExact` and
  `ConnLimiter.LimitingAsComputedExact` say for which configs that does not matter.
- Catalog keys are stored as configured and looked up in lower case: `ServerCatalog.DeadEntryExact`.
- `WriteVarInt` of the second codec does not end on negative numbers: `SrcCodec.WriteTerminatesExact`.
- The second codec takes the end of its input for a zero byte and fills a short read up with zeros:
  `SrcCuts.CutVarIntExact`, `SrcCuts.CutHandshakeExact`, and `SrcCuts.LostLogin` for a frame accepted wrongly.
- The RealIP upgrade changes the parsed host if it ends in a slash: `RealIp.UpgradeKeepsHostExact`.

## Model

| member | source | states |
|---|---|---|
| ServerConfigs.VerifyConfigs | config/verify.go:48-78 | The nested loop reports exactly the listed errors in order, and none exactly if every config has a domain and a `proxyTo` and no domain occurs twice anywhere in the list. |
| ServerConfigs.CheckDomains | config/verify.go:60-72 | One config's domains: each one already claimed is reported with the config that claimed it first, and the table of first claims is extended. |
| ServerConfigs.NoErrorsIffVerified | config/verify.go:48-78 | For every list, no complaint if and only if the list is verified. |
| ConfigErrors.ErrorsExact | config/verify.go:48-78 | What is reported is exactly what there is a reason for: a path whose config has no domain or no `proxyTo`, and a domain that comes a second time, with the path of the config it comes in and the path of the first config that lists it. |
| ConfigErrors.DuplicatesConserved | config/verify.go:60-72 | Duplicates reported and distinct domains add up to the domains listed, so each repetition is reported once. |
| ServerConfigs.BuildIsClaims | proxy.go:68-85 | On a list without shared domains the built catalog is the claim relation: a domain leads to an id exactly if a config with that id lists it. |
| ServerConfigs.UniqueOrderIrrelevant | config/verify.go:60-72 | Uniqueness of domains does not depend on the order of the files. |
| ServerConfigs.BuildOrderIrrelevant | proxy.go:75-85 | Every permutation of a list with unique domains builds the same catalog. |
| Reload.CountingExact | worker/backend_manager.go:98-119 | The 1/2/3 counting finds exactly the added and the removed domains if and only if no domain repeats in the only list that has it. |
| Reload.CountingIsDifference | worker/backend_manager.go:98-119 | For lists without repeats the counting is set difference in both directions. |
| ReloadRoutes.AddAgrees | worker/backend_manager.go:62-72 | Adding a config whose domains nobody claims keeps the four maps in agreement. |
| ReloadRoutes.RemoveAgrees | worker/backend_manager.go:74-90 | Removing a config as it is in force keeps them in agreement. |
| ReloadRoutes.UpdatedLookup | worker/backend_manager.go:92-127 | One update moves the added domains to the id's backend, deletes the dropped ones and touches no other route. |
| ReloadRoutes.UpdateExact | worker/backend_manager.go:92-127 | One update leaves the right routes if and only if its comparison with the stored version is faithful to the routes in force. |
| ReloadRoutes.FreshDiffFaithful | worker/backend_manager.go:92-96 | A comparison with the version in force is always faithful. |
| ReloadRoutes.LoadIntoEmpty | worker/backend_manager.go:50-55 | The first load builds exactly the routes of the list. |
| ReloadByDomain.RemoveAllLook | worker/backend_manager.go:139-143 | In every order, the removal loop deletes the stored domains of the ids that are gone and no other route. |
| ReloadByDomain.RoundLook | worker/backend_manager.go:145-151 | One round of the apply loop sets, deletes or keeps a domain, decided by the stored and the new version of the id in turn. |
| ReloadByDomain.DomainExact | worker/backend_manager.go:133-152 | After a load a domain leads to its claimant, or nowhere if it has none, if and only if nobody deletes it at the wrong time or forgets to. |
| ReloadByDomain.StoredReloadExact | worker/backend_manager.go:36-152 | From any stored versions and any configs in force, a load leaves the routes of a from-scratch build if and only if every domain is safe for the order taken. |
| ReloadByDomain.SafeIsOrderSafe | worker/backend_manager.go:133-152 | When the stored versions are in force, safety of every domain is just that no domain is taken over before its former owner drops it. |
| ReloadByDomain.ReloadExact | worker/backend_manager.go:36-152 | Reload equals rebuild, per iteration order: from coherent tables, if and only if no domain is taken over too early. |
| ReloadByDomain.ReloadEveryOrderExact | worker/backend_manager.go:133-152 | Before the load, from any stored versions and configs in force: every load of the list, in whatever orders, leaves the rebuilt routes if and only if nobody drops a claimed domain, a claimant stored with a domain still has it and nobody removed is stored with it, and every released domain is stored with somebody. |
| ReloadByDomain.CoherentEveryOrderExact | worker/backend_manager.go:133-152 | When the stored versions are in force that is: no domain dropped by a surviving config is claimed by another config of the new list. |
| ReloadByDomain.LastDropWins | worker/backend_manager.go:114-116 | Whoever is applied last and drops a domain leaves it unrouted. |
| ReloadRuns.LoadedId | worker/backend_manager.go:133-152 | After a load exactly the ids of the list are stored; an id that survives keeps its backend and, as written, its old version. |
| ReloadRuns.NewIdNewBackend | worker/backend_manager.go:69-70 | An id new in a load gets a backend that did not exist before. |
| ReloadRuns.LoadKeepsLedger | worker/backend_manager.go:62-90 | A load keeps the ledger: every backend is created once, and closed once if and only if it is no longer in use. |
| ReloadRuns.RunTables | worker/backend_manager.go:36-152 | Over every run: ids and backends are those of the last load, the ledger balances, and an id is stored with the version of its last appearance (as written) or with the last version (recording). |
| ReloadRuns.FirstChangeAsRecorded | worker/backend_manager.go:92-127 | While the stored domains are the ones in force, a load is safe as written if and only if it is safe in the recording variant. |
| ReloadRuns.AsWrittenRunExact | worker/backend_manager.go:36-152 | For all runs of verified lists, as written: routes are right after every load if and only if every load is safe for the versions kept. |
| ReloadRuns.NextListExact | worker/backend_manager.go:133-152 | After any run, as written, that ends right: the next list is loaded right in every order if and only if its domains are safe in any order, given the versions kept and the last list. |
| ReloadRuns.RecordingRunExact | worker/backend_manager.go:36-152 | The same for the variant that stores the updated config: if and only if no load takes a domain over too early. |
| ReloadRuns.RecordingCoherentExact | worker/backend_manager.go:36-152 | After a run of that variant all four maps and the stored configs are coherent if and only if the routes are right after its last load. |
| ReloadSettings.LoadSettings | worker/backend_manager.go:92-127 | A load hands a surviving backend its config if and only if that differs from the stored version. |
| ReloadSettings.SettingsExact | worker/backend_manager.go:92-127 | As written, over every run: the config last handed to a backend is that of the last list if and only if it differs from the first version, or no version since the first did. |
| ReloadSettings.RecordingSettings | worker/backend_manager.go:92-127 | In the recording variant it always is. |
| ReloadCases.Grown | worker/backend_manager.go:92-127 | After a config grows by a domain, the domain is routed but the small version stays stored. |
| ReloadCases.RollbackIsIgnored | worker/backend_manager.go:92-96 | Going back to the small version changes nothing: the added domain stays routed. |
| ReloadCases.LeftoverLeadsToClosed | worker/backend_manager.go:74-90 | Removing the grown config closes its backend while the added domain still leads to it. |
| ReloadCases.StaleDomain | worker/backend_manager.go:92-127 | Concrete lists on which both happen. |
| ReloadCases.MovedDomainLost | worker/backend_manager.go:145-151 | A domain that moves between two surviving configs is unrouted after the order that applies its new owner first. |
| ReloadCases.MovedDomain | worker/backend_manager.go:145-151 | Concretely, {a, x} and {b} loaded and then {a} and {b, x} leave x unrouted. |
| ReloadScript.RemoveSafeExact | worker/backend_manager.go:82-89 | A removal never leaves a way to the backend it closes if and only if every catalog entry for that backend is one of the stored domains. |
| ReloadScript.LoadScriptSafe | worker/backend_manager.go:133-152 | For every pair of orders, the script of a load closes a backend only after all workers got a catalog without it, and never uses it afterwards. |
| ReloadScript.RemovedOwnStoredExact | worker/backend_manager.go:82-85 | While the routes are right, every catalog entry for a backend to be removed is one of its stored domains if and only if no removed config has gained a domain since the version stored of it. |
| ReloadScript.RunOwnStoredExact | worker/backend_manager.go:82-85 | As written, after a run that ends right, every such entry is a stored domain if and only if nothing removed has grown since it was first added. |
| ReloadScript.CoherentOwnStored | worker/backend_manager.go:82-85 | Coherent tables meet the condition for safe removals. |
| DrainExact.EveryScriptSafeExact | worker/backend_manager.go:82-89 | Every script of every load of a list closes every backend only after its drain if and only if every catalog entry for a backend to be removed is one of its stored domains. |
| BackendManagers.WorkerManager.AddBackend | worker/worker_manager.go:58-63 | Every listed domain leads to the server, no other entry changes, then all workers are updated. |
| BackendManagers.WorkerManager.RemoveBackend | worker/worker_manager.go:65-70 | The listed domains are gone, no other entry changes, then all workers are updated. |
| BackendManagers.BackendManager.AddConfig | worker/backend_manager.go:62-72 | The object's new state is the specified one: all four maps and the order of effects. |
| BackendManagers.BackendManager.RemoveConfig | worker/backend_manager.go:74-90 | Likewise, the catalog before the close; an unknown id changes nothing. |
| BackendManagers.BackendManager.Tally | worker/backend_manager.go:98-105 | A counting loop adds its weight once for every occurrence of a domain. |
| BackendManagers.BackendManager.SortDomains | worker/backend_manager.go:107-119 | Whatever the iteration order, the added and removed lists and the owner table come out the same. |
| BackendManagers.BackendManager.UpdateConfig | worker/backend_manager.go:92-127 | The object's new state is the specified one; the stored config stays. |
| BackendManagers.BackendManager.RemoveGone | worker/backend_manager.go:139-143 | The loop that deletes from the map it iterates over is the removal fold over one order of the stored ids. |
| BackendManagers.BackendManager.ApplyNew | worker/backend_manager.go:145-151 | The loop is the apply fold over one order of the new ids. |
| BackendManagers.BackendManager.LoadAllConfigs | worker/backend_manager.go:133-152 | The whole reconciliation is one load of the model, for some two orders. |
| BackendManagers.BackendManager.Update | worker/backend_manager.go:36-59 | It fails exactly if reading or a conversion fails, and then changes nothing; otherwise it is one load of the list read. |
| ServerCatalog.LookupAfterLoad | core/server_catalog.go:37-44 | After a load in which every domain is safe, a lookup finds the backend of the config that lists the address with its upper-case letters lowered, and nothing if and only if there is none. |
| ServerCatalog.FindExact | core/server_catalog.go:37-44 | A lookup returns what is stored under the key that equals the address letter by letter, upper-case letters 32 characters further up, and nothing if and only if there is no such key. |
| ServerCatalog.FindsLowerCase | core/server_catalog.go:37-44 | An address without upper-case letters that is a key is found. |
| ServerCatalog.DeadEntryExact | core/server_catalog.go:37-44 | A catalog entry matters to no lookup if and only if its key has an upper-case letter. |
| DrainProtocol.StepRequests | worker/backend.go:364-374 | In every step: a caller has a request queued or in work at a backend exactly while it waits for that backend, and never twice. |
| DrainProtocol.StepFirstInFirstOut | worker/backend.go:221-240 | Requests of a backend are answered in the order sent: a step appends one, answers the first, or leaves them alone. |
| DrainProtocol.AsksTheSameAgain | worker/backend.go:346-374 | A worker that asks again goes to the same backend, whatever the catalog has by now. |
| DrainProtocol.StepInv | worker/worker.go:84-140 | Every step of the manager, a worker, a goroutine or a backend keeps the safety of the rest of the script and keeps updated workers away from removed backends. |
| DrainTheorems.DrainBeforeClose | worker/worker_manager.go:65-83 | In every interleaving of a load with any number of workers and backends, from the closing of a backend on no worker loop holds it, waits for it or has a request there, and no lookup returns it. |
| DrainTheorems.NoWorkerMeetsClosed | worker/backend.go:235-237 | Under the condition for safe removals no worker loop ever holds or waits for a backend that is closed or not yet created. |
| DrainTheorems.ManagerMoves | worker/worker_manager.go:79-83 | In every healthy state some step not depending on new connections is possible that brings the manager nearer to the end. |
| DrainTheorems.ReloadCanFinish | worker/worker_manager.go:79-83 | No reload gets stuck: every healthy state has a continuation without new connections in which the manager finishes. |
| DrainTheorems.LoadStaysHealthy | worker/worker.go:84-101 | Under the same condition every state of a load is healthy while no worker has stopped, so the load cannot get stuck. |
| DrainExact.UnsafeBehaviour | worker/backend_manager.go:82-89 | Otherwise there are a load and a behaviour of it that ends with an in-use backend closed, still in the catalog, and held by a worker. |
| DrainExact.EveryLoadDrainsExact | worker/worker_manager.go:65-83 | Every backend in use is drained when it is closed, in every behaviour of every load of a list, if and only if every entry for a backend to be removed is one of its stored domains. |
| DrainExact.StaysAwayExact | worker/worker.go:129-140 | While no entry leads to a closed backend beforehand, no worker comes to hold one in any behaviour of any load under exactly the same condition. |
| DrainExact.RunDrainsExact | worker/backend_manager.go:82-89 | The same after every run of loads, right or wrong. |
| DrainExact.NextDrainsExact | worker/backend_manager.go:82-89 | As written, after a run that ends right: the next list drains and keeps workers away from closed backends in every behaviour if and only if nothing it removes has grown since it was first added. |
| DrainRuns.LoadEnds | worker/backend_manager.go:133-152 | When the manager is done with a load, in whatever behaviour, the catalog and the life of every backend are those of the tables. |
| DrainRuns.NextLoadStarts | worker/backend_manager.go:36-59 | And all that is asked for at the start of a load holds for the next one. |
| DrainRuns.RunNeverMeetsClosed | worker/worker.go:84-140 | Over whole runs of loads happening one after the other, no worker ever holds, waits for or has an answer of a backend that is not alive, under the condition for every load. |
| DrainPushes.LoadAnnounces | worker/worker_manager.go:58-83 | In the script of every load each change of the catalog is followed by an update of the workers at once, and backends are configured or closed only right after one. |
| DrainPushes.EveryWorkerIsTold | worker/worker_manager.go:79-83 | In every interleaving of a load, once the manager is done each worker has taken an update after every single write to the catalog. |
| DrainTheorems.StrandedForever | basic.go:138-166 | From the closing of a backend on, the goroutines that hold it, with a panic ahead, are always the same ones, and so are those that wait for it. |
| DrainTheorems.CloseStrandsExact | worker/backend.go:372-373 | After a close a goroutine is left with a panic ahead if and only if one holds the backend at that moment, and one left waiting for ever if and only if one waits for it. |
| DrainTheorems.ProxyGoroutineMeetsClosed | basic.go:138-166 | A run in which the drain is complete and a proxy goroutine still holds the closed backend. |
| WindowBound.SlidingBound | module/conn_limiter.go:38-51 | Any counter restarted every cooldown and capped by a limit lets at most limit times (length over cooldown, rounded up, plus one) through in any interval. |
| ConnLimiter.BotFilterConnLimiter.Allow | module/conn_limiter.go:90-129 | One call leaves the specified counter, times, flag and tables, and the specified verdict. |
| ConnLimiter.SlidingWindow | module/conn_limiter.go:95-128 | Over every run and interval, logins let through while not limiting stay within the window bound. |
| ConnLimiter.CalmRunAdmitted | module/conn_limiter.go:90-129 | A run in which no cooldown sees more logins than the limit is let through entirely. |
| ConnLimiter.LimitingSticky | module/conn_limiter.go:95-116 | If a login turns limiting on in a window started at s, every later call before s plus the unverify cooldown leaves it on. |
| LimiterHistory.CounterExact | module/conn_limiter.go:95-105 | Over every run the counter is the number of logins since the window started, denied and banned ones included, and status requests not. |
| LimiterHistory.LastFullExact | module/conn_limiter.go:95-103 | Over every run the remembered time is the latest start of a window that ended with more logins than the limit, or the creation. |
| LimiterHistory.LimitingExact | module/conn_limiter.go:95-115 | A login leaves limiting on if and only if it came above the limit of its window without being banned, or limiting was on and the window is not over or the last full one started less than the unverify cooldown ago. |
| LimiterHistory.RecordedExact | module/conn_limiter.go:116-121 | A name is recorded for an address if and only if the first login from there that met limiting unbanned gave it. |
| LimiterHistory.BannedExact | module/conn_limiter.go:106-125 | An address is banned if and only if within the list clear time a login from there met limiting unbanned under another name than that first one. |
| LimiterHistory.AdmittedExact | module/conn_limiter.go:106-130 | A login is let through if and only if its address is not banned and, while limiting, the name recorded for its address is its own. |
| LimiterHistory.AdmittedByHistory | module/conn_limiter.go:106-130 | The same by the logins before: no such mismatch within the list clear time and, while limiting, the same name as the first login that met limiting from there. |
| LimiterHistory.ReconnectIsAdmitted | module/conn_limiter.go:116-130 | Whoever was denied for being that first login and comes back under the same name is let through if and only if the address is not banned. |
| ConnLimiter.VerifiedByReconnect | module/conn_limiter.go:115-121 | Whoever is let through while limiting was denied earlier from the same address under the same name. |
| ConnLimiter.OneNamePerAddress | module/conn_limiter.go:117-125 | From one address at most one name is ever let through while limiting. |
| ConnLimiter.WrongNameBans | module/conn_limiter.go:122-125 | After a wrong name every login from the address within the list clear time is denied. |
| ConnLimiter.BanLastsTenWindows | worker/backend.go:52-54 | As a backend configures the limiter, an address is banned exactly until ten windows have passed since the wrong name, whatever happens until then. |
| ConnLimiter.BanAsConfiguredExact | worker/backend.go:52-54 | The ban lasts the configured ban list cooldown if and only if that is ten windows long. |
| ConnLimiter.LimitingLastsBanCooldown | worker/backend.go:52-54 | Limiting lasts the rest of its window and the configured ban list cooldown. |
| ConnLimiter.LimitingAsComputedExact | worker/backend.go:52-54 | It lasts the ten windows computed for it if and only if those are the configured ban list cooldown. |
| ConnLimiter.FloodBans | module/conn_limiter.go:90-129 | For every config a run in which limiting turns on and a wrong name is given. |
| ConnLimiter.DefaultBanTooShort | config/types.go:72-74 | With the shipped config, five minutes of ban, the address is free again after ten seconds. |
| ConnLimiter.AbsoluteConnLimiter.Allow | module/conn_limiter.go:38-51 | One call leaves the specified counter and window start, and the specified verdict. |
| ConnLimiter.AbsSlidingWindow | module/conn_limiter.go:38-51 | The window bound for everything the absolute limiter lets through when it limits status requests too. |
| ConnLimiter.AbsCalmAdmitted | module/conn_limiter.go:38-51 | The absolute limiter refuses nobody at whose call the calls of the last cooldown are within the limit. |
| ConnLimiter.AbsOffAdmitsAll | module/conn_limiter.go:43-45 | Switched off for status requests, the absolute limiter lets everything through. |
| Caches.StatusCache.Status | module/status_cache.go:39-50 | One call serves the cached packet or fetches; only a fetch that brings a packet changes the cache. |
| Caches.StatusIsFresh | module/status_cache.go:39-50 | Every answer without error is the packet of the latest renewing fetch, which is this call's own or younger than the cooldown. |
| Caches.StatusErrorExact | module/status_cache.go:39-50 | A call answers with an error if and only if it fetches and that fails, and with it comes the packet of the latest renewing fetch. |
| Caches.RenewalsApart | module/status_cache.go:39-50 | Fetches that renew the cache are at least a cooldown apart. |
| Caches.FetchesIffStale | module/status_cache.go:39-50 | A call fetches if and only if no fetch succeeded within the cooldown before it; failures do not postpone the next. |
| Caches.McServerState.State | module/state_agent.go:29-43 | One call returns the cached verdict or probes; every probe, failed or not, restarts the cooldown. |
| Caches.StateIsLatestVerdict | module/state_agent.go:29-43 | A call answers online if and only if the latest dial succeeded and offline if and only if it failed; that dial is no older than the cooldown. |
| Caches.NeverProbes | module/state_agent.go:29-32 | With the largest possible cooldown the server is never probed and stays unknown. |
| Caches.ProbeRate | module/state_agent.go:29-43 | At most length over cooldown, rounded down, plus one probes in any interval, whatever the dials give. |
| ActiveConns.Counter.ProxyRequest | worker/backend.go:242-251 | A signal moves the counter and the gauge under the current name by one, and nothing else. |
| ActiveConns.Counter.UpdateName | worker/backend.go:190-195 | A rename deletes the old host and adds the counter to the new one; an empty name changes nothing. |
| ActiveConns.ActiveConnsConserved | worker/worker.go:205-209 | In every interleaving the counter is the number of connections whose opening was consumed and whose closing was not, is never negative, and with the queued signals gives the goroutines between their two sends. |
| ActiveConns.StepGaugeExact | worker/backend.go:190-195 | A step keeps the gauge equal to the counter if and only if it is not a rename to a host in use. |
| ActiveConns.RenameMoves | worker/backend.go:190-195 | After a rename to another name the old host is gone, the new one has the counter more, and no other host changes. |
| ActiveConns.OtherHostsKept | worker/backend.go:242-251 | No step touches the host of another backend. |
| ActiveConns.GaugeShowsActiveConns | worker/backend.go:242-251 | While names are not shared the gauge under the current name is the counter, across all renames. |
| ActiveConns.QuietMeansZero | worker/worker.go:205-209 | When all goroutines are done and the channel is empty, nothing is counted. |
| BackendWorker.Backend.UpdateSameGoroutine | worker/backend.go:190-220 | Whatever the new config leaves empty keeps its old value; the gauge follows the name. |
| BackendWorker.Backend.HandleRequest | worker/backend.go:253-312 | The answer and the new state of every module are the specified ones. |
| BackendWorker.DecidedExactly | worker/backend.go:253-275 | A request is proxied if and only if it reaches the limiter and passes it; which packet the others are answered with; what is cached afterwards; and that modules which are not asked do not change. |
| BackendWorker.AnswerByConfiguration | worker/backend.go:253-275 | The answers of backends that are always online or offline, have no cache, and have no limiter or one that lets everything through. |
| BackendWorker.ForwardedHandshakeExact | worker/backend.go:299-311 | The server reads from the first packet the client's version, port and state. Without RealIP, or for an address with `///`, it reads the address asked for; otherwise the host, the client's address and the time between separators, and the first forge tag. The host is the one asked for if and only if RealIP did not rewrite one ending in a slash. |
| BackendWorker.SeenParts | mc/packet_login.go:192-207 | What the server finds in a rewritten address when it splits it at NUL. |
| BackendWorker.ForwardedLogin | worker/backend.go:308-309 | For a login the server reads the user's name from the second packet. |
| BackendWorker.ForwardedOther | worker/backend.go:304-310 | A proxied status request is sent on as the empty packet with id zero. |
| BackendRuns.FilterRuns | worker/backend.go:253-275 | Over every run of requests the filter of a backend runs through exactly the calls that reach it. |
| BackendRuns.ProxiedLoginsBounded | worker/backend.go:253-275 | Over every run of requests and every interval, the logins a backend proxies while not limiting stay within the bound of its filter. |
| BackendRuns.VerifiedAskedBefore | worker/backend.go:271-275 | Over every run, whoever is proxied while the filter is limiting asked before, from the same address and under the same name, and got no answer. |
| BackendRuns.AnsweredByLatestDial | worker/backend.go:253-261 | Over every run of requests at a backend that probes its server, a login is answered as from an offline server if and only if the latest dial failed, and likewise status requests if nothing is cached. |
| BackendRuns.AbsoluteProxies | worker/backend.go:271-275 | Over every run of requests at a backend with an absolute limiter, a request is proxied if and only if it reaches the limiter and is let through at its time. |
| Leb128.PrefixFree | mc/type.go:144-159 | No encoding is the beginning of another. |
| Leb128.EncodeAt | mc/type.go:144-159 | Byte k of an encoding is the k-th group of seven bits, lowest first, with the continuation bit on all bytes but the last. |
| McType.VarIntEncode | mc/type.go:144-159 | The encoding loop emits unsigned LEB128 of the 32-bit pattern. |
| McType.ReadVarIntUnsigned | mc/type.go:259-275 | The decoding loop returns the sum of the seven-bit groups modulo 2 to the 32, or the specified error, and stops behind the number. |
| McType.ReadVarInt | mc/type.go:184-199 | The same number read as signed. |
| McType.OrOfGroupIsSum | mc/type.go:170-170 | On machine words, or-ing a shifted group onto lower groups is adding it. |
| McType.VarIntRoundTrip | mc/type.go:144-199 | Every 32-bit integer comes back with its sign, before any suffix, from one to five bytes. |
| McType.VarIntShortest | mc/type.go:144-159 | No shorter byte string decodes to the same number. |
| McType.VarIntErrors | mc/type.go:164-177 | The size error means exactly five continuation bytes followed by a sixth byte; the end of input exactly that it comes before that. |
| McType.ReadNBytes | mc/type.go:247-257 | The loop returns the next n bytes or the end of input. |
| McType.ReadString | mc/type.go:211-221 | A string is the bytes its length prefix announces, whether the prefix is read as signed or not. |
| McType.ReadNumber | mc/type.go:202-208 | The accumulated bytes are the big-endian number. |
| McType.BigEndianAt | mc/type.go:202-208 | The k-th byte from the right is that of the k-th power of 256. |
| McType.FieldRoundTrip | mc/type.go:63-181 | Every field comes back from its encoding, before any suffix. |
| McType.FieldLocal | mc/type.go:72-141 | What comes after a field does not matter to it. |
| McType.FieldPrefix | mc/type.go:72-141 | A field read without going beyond some front of the input is read from that front alone. |
| McPacket.PacketMarshal | mc/packet.go:47-55 | The built buffer is length, id and data. |
| McPacket.ReadPacket | mc/packet.go:112-131 | The reader's result and position are those of the packet format with a signed length. |
| McPacket.ReadPacket3 | mc/packet.go:139-157 | Likewise with an unsigned length. |
| McPacket.PacketRoundTripExact | mc/packet.go:47-131 | A packet comes back from its bytes, before any suffix, if and only if its length is below 2 to the 31. |
| McPacket.PacketErrors | mc/packet.go:112-157 | A packet is too short if and only if its length is below one, the input is over if and only if fewer bytes come than announced or the length is cut, and nothing else but an oversized length is refused. |
| McPacket.ReadPackets | mc/packet.go:112-131 | Reading until a read fails gives the packets of the stream. |
| McPacket.StreamRoundTrip | mc/packet.go:47-157 | The concatenation of any list of packets is read back packet by packet and used up, by every reader. |
| McPacket.ReadersAgreeExact | mc/packet.go:99-157 | The readers agree on what they accept if and only if the stream does not carry a packet of 2 to the 31 bytes or more. |
| McPacket.Scan | mc/packet.go:58-65 | The loop over the fields gives the specified values, error and position. |
| McPacket.ScanOfMarshal | mc/packet.go:58-77 | Scanning inverts marshalling for every list of fields, before any suffix. |
| McHandshake.HandshakeMarshal | mc/packet_login.go:51-59 | The packet has the handshake's id and its four fields in order. |
| McHandshake.UnmarshalHandshake | mc/packet_login.go:65-118 | Both packet decoders read the four fields or report the specified error. |
| McHandshake.UnmarshalByteReader | mc/packet_login.go:120-148 | The third decoder reads id and fields from bare bytes. |
| McHandshake.ReadPacket3Handshake | mc/packet.go:159-197 | The streaming decoder reads length, id and fields, with its own error cases and position. |
| McHandshake.UnmarshalsAgree | mc/packet_login.go:65-118 | The second decoder accepts whatever the first accepts, with the same fields and the same 32-bit version. |
| McHandshake.UnframedAgrees | mc/packet_login.go:91-148 | The third decoder agrees with the second on acceptance, value, length and error. |
| McHandshake.StreamingRefinesBuffered | mc/packet.go:159-197 | On every frame the buffered pair accepts, the streaming decoder returns the same fields, and it stops at the same place if and only if the payload was used up. |
| McHandshake.StreamingExact | mc/packet.go:159-197 | Of a whole frame the second packet decoder accepts exactly what the streaming decoder accepts within the frame and whose id is a single zero byte, with the same value. |
| McHandshake.StreamingErrors | mc/packet.go:159-197 | The streaming decoder refuses as too short exactly a length of zero and as a wrong id exactly any id but the handshake's; it accepts nothing else. |
| McHandshake.BufferedErrors | mc/packet_login.go:65-148 | The other decoders refuse exactly every other id with that error. |
| McHandshake.HandshakeRoundTrip | mc/packet_login.go:51-89 | Every handshake that fits the wire comes back from the packet and, framed, from the stream. |
| SrcCodec.WriteTerminatesExact | src/type.go:24-36 | The writing loop ends if and only if the number is not negative. |
| SrcCodec.WriteVarInt | src/type.go:24-39 | For those it emits unsigned LEB128. |
| SrcCodec.ReadVarInt | src/type.go:8-22 | On every finite input the loop ends, with the sum of the groups modulo 2 to the 64, as signed. |
| SrcCodec.VarIntRoundTrip | src/type.go:8-39 | Every nonnegative 63-bit integer comes back, before any suffix. |
| SrcCodec.TwoCodecsOneFormat | src/type.go:8-39 | Below 2 to the 31 both codecs write the same bytes and each reads the other's. |
| SrcCodec.ReadsSignedExact | src/type.go:8-22 | A signed VarInt of the first codec is read right if and only if it is not negative. |
| SrcCodec.StringRoundTrip | src/type.go:50-75 | A string comes back if and only if it is not empty or anything follows it. |
| SrcCodec.ReadBuffer | src/type.go:56-60 | One read fills a zeroed buffer with what is there, and fails only if nothing is. |
| SrcCodec.OrOfLowGroupIsSum | src/type.go:16-16 | On 64-bit words, or-ing one of the first groups onto lower ones is adding it. |
| SrcCodec.OrOfHighGroupIsSum | src/type.go:16-16 | The same for the groups up to the tenth. |
| SrcCodec.WriteTo | src/packet.go:18-36 | The length prefix is the length of the body written, and the count returned is the number of bytes written. |
| SrcCodec.ReadServerBoundHandshake | src/packet.go:38-65 | Field by field the reader gives the specified handshake or error, and the position behind it. |
| SrcCodec.ReadPacketData | src/server.go:161-176 | One length and one read of that many bytes. |
| SrcCodec.FrameRoundTrip | src/packet.go:18-65 | Reading a written frame and then its data recovers the handshake. |
| SrcCodec.TailNeedsPort | src/type.go:77-80 | What follows the address is refused if and only if the port is not there in full. |
| SrcCodec.CutFrameExact | src/server.go:161-176 | The data of an accepted frame is what the stream holds followed by zeros, and all from the stream if and only if the stream held enough. |
| SrcCuts.CutVarInt | src/type.go:8-22 | A VarInt cut short is read, without an error, as the groups that are left of it. |
| SrcCuts.CutVarIntExact | src/type.go:8-44 | It is read right if and only if nothing was cut off or it is zero. |
| SrcCuts.LostByte | src/type.go:8-22 | The first byte of the number 300 is read as 44. |
| SrcCuts.CutFrameData | src/server.go:161-176 | What is accepted of a written frame after any number of its bytes, and that it is the body if and only if everything missing is zero. |
| SrcCuts.FilledHandshakeExact | src/packet.go:38-65 | A handshake whose end is overwritten with zeros is read as itself if and only if that changes nothing. |
| SrcCuts.CutHandshakeExact | src/packet.go:38-65 | A frame cut anywhere is accepted as the handshake written if and only if some of its body is there and everything missing is zero. |
| SrcCuts.LastByteLost | src/packet.go:38-65 | A frame without its last byte is accepted as the same handshake with the state zero. |
| SrcCuts.LostLogin | src/packet.go:38-65 | A concrete login that becomes a handshake of state zero. |
| SrcCodec.SameHandshakeFrame | src/packet.go:18-36 | Both codecs write the same frame for the same handshake. |
| RealIp.ServerBoundHandshake.UpgradeToOldRealIP | mc/packet_login.go:192-207 | The address becomes the specified one; a RealIP address stays. |
| RealIp.ParseExact | mc/packet_login.go:181-186 | Parsing an address gives exactly what stands in front of the first NUL and the first `///`. |
| RealIp.PlainHost | mc/packet_login.go:181-186 | An address without either is returned unchanged. |
| RealIp.RealIPIffSeparator | mc/packet_login.go:176-179 | An address is RealIP if and only if `///` occurs in it. |
| RealIp.UpgradeKeepsHostExact | mc/packet_login.go:181-207 | The upgrade keeps the parsed host if and only if the address is RealIP already or its host does not end in a slash. |
| RealIp.UpgradeKeepsForgeExact | mc/packet_login.go:171-207 | It keeps forge-ness if and only if it changes nothing, the address is forge, or the client address has no NUL. |
| RealIp.UpgradeIdempotent | mc/packet_login.go:176-207 | An upgraded address is RealIP, and a second upgrade changes nothing. |
| RealIp.UpgradedParts | mc/packet_login.go:192-207 | Splitting an upgraded address at NUL gives the host with client address and time, and for a forge address its first tag. |
| GoStrings.SplitOfJoin | src/config.go:40-49 | Parts without the separator come back from joining and splitting. |
| GoStrings.AtoiOfFormat | src/config.go:53-62 | Every 64-bit integer, negative ones included, comes back from printing. |
| GoStrings.AtoiClamps | src/config.go:53-62 | A printed number out of range is read as the nearest 64-bit integer. |
| GoStrings.AtoiMalformed | src/config.go:53-62 | Text that is not digits behind at most one sign is read as zero. |
| GoStrings.DigitAt | mc/packet_login.go:200-200 | The k-th digit from the right of a printed number is that of the k-th power of ten. |
| BedrockStatus.RoundTripExact | src/config.go:40-64 | Parsing a printed status line gives the status back if and only if no text has a semicolon. |
| BedrockStatus.LineParts | src/config.go:40-46 | The twelve parts of a printed line, one by one; the seventh is the server's id in decimal. |
| BedrockStatus.AcceptedExact | src/config.go:48-64 | A line is read if and only if it has at least twelve parts. |

## Left out

- Sockets, deadlines, listeners, copying between connections, the HTTP API, graceful restart and the registry of
  metrics; of the metrics only the gauge per host is kept, as a map.
- PROXY protocol headers, the signed RealIP 2.5 address, key generation: foreign libraries.
- JSON files, JSON status bodies and durations in text: a packet's data is any bytes, a duration an integer.
- Reading and converting configs before a reload: `BackendManagers.BackendManager.Update` takes the result of both. A
  conversion that would fail only when repeated inside the reload is not modelled, nor are generated keys.
- Two reloads at once and data races on the shared catalog: one reload at a time, map writes and deletes are atomic.
- Registering workers while a reload runs. A worker that stops is modelled and blocks the manager, as in the code.
- `reflect.DeepEqual` distinguishes a nil slice from an empty one; the model has one empty list. Configs are compared
  by their domains and one field that stands for all others.
- `BackendServer`: its methods send an empty status request whatever they are asked; only the sending and waiting is
  modelled. The decisions are those of `BackendWorker.HandleRequest`.
- `APIServer` and its decision table, enum conversions and generated names.
- In `BackendWorker` the connection creator and the PROXY protocol flag, which only shape the connection made later.
- Modules shared by value: a backend's loop works on a copy of the worker, and the gauge label of a backend that was
  closed is never deleted; neither is modelled.
- One reading of the clock per call of a limiter or the state agent; the code reads it up to three times. The status
  cache has two, before and after the fetch.
- A duration that overflows 64 bits when it is multiplied by ten: the limiter's parameters are at most the largest duration.
- `FilterIpFromAddr`: the address a limiter goes by is an argument.
- Lower case is ASCII lower case.
- Where a read fails the position of the reader is not specified.
- A negative string or packet length makes the allocation of a buffer panic; it is the error `NegativeLength` here.
- Shifting and or-ing groups is addition modulo the width; `McType.OrOfGroupIsSum` justifies it on 32-bit words.
- `ReadPacketSize_Bytes`, `ReadPacketBytes` on its own, and the Bedrock ping and pong packets: same loops, no new property.
- WriteVarInt: `SrcCodec.WriteVarInt` excludes negative numbers, on which the loop does not end.
- A network read that returns fewer bytes than are still to come: `SrcCodec` reads from a byte slice.
