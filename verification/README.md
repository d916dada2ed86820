# Verified model of the call runner and its workers

A runner answers phone calls by claiming single-tenant worker processes; several runners share one
Redis. A worker carries the call: speech recognition, language model, speech synthesis. After the
call a webhook reports the outcome. This project models the parts of that system whose correctness
depends on order, time or interleaving, and proves what they promise over all inputs, all runs and
all reachable states.

| file | what it models |
|---|---|
| RedisState.dfy | the two Redis indexes, the Lua scripts, exclusivity and lifetime of claims, retried scripts |
| RunnerProtocol.dfy | any number of runners as a step relation with a program counter per method call, crashes, caches, time |
| InverseIndexes.dfy | exactly when each script, and each run of scripts, keeps the two indexes mutually inverse |
| SerialProtocol.dfy | the same for runs of any number of runners, a discipline that ensures it, and runs that break it |
| WorkerPool.dfy | single-process mode, the health reader |
| PoolRefinement.dfy, RedisMode.dfy | Redis mode refines single-process mode; failing Redis requests |
| WorkerSide.dfy | the worker's call state, the prewarm cache and the endpoints that drive them |
| HealthSafety.dfy | the health readers of all runners against one worker, with clocks |
| UndisturbedCalls.dfy | the interleaved machines compute the pool operations when nothing interferes |
| OutboundSaga.dfy | the outbound route from reservation to exit, interleaved with everything else |
| K8sDiscovery.dfy | reconciliation of the pool with the pod list |
| Webhooks.dfy | deliveries: enqueue, trigger, poll, POST, backoff |
| InterruptionJudge.dfy, SilenceNudge.dfy, CallMetrics.dfy | frame-driven machines against specifications over the whole trace |
| SqlSplitter.dfy, SqlStatements.dfy, SqlTokens.dfy | the SQL statement splitter, what becomes of each segment, and a reference lexer on whole tokens |
| Chunking.dfy, AudioPacing.dfy | overlapping text chunks, pacing of outgoing audio |

Code that changes state is a class whose methods are proved to compute functions on the abstract
state; the lemmas are about those functions. Sequence numbers of events stand for object identities
(tasks, probes, rows); times are reals; the answers of Redis, the worker, the provider, the web
server and the clock are parameters or events.

## What the proofs found

- The release script compares nothing. It frees another call exactly when its worker has moved on to
  one (`ReleaseFreesAnotherCallExactlyWhen`), and a run of scripts keeps the two indexes mutually
  inverse exactly when each script meets a guard that none of them checks
  (`RunnersKeepInverseExactlyWhen`). Four runs break it: a duplicate release, a release whose reply is
  lost and which is run again, a health reader that releases by a stale cache, and a rename after a
  release (`StrongNeedsTheDiscipline`). What needs only that no id is
  given to two workers is recoverability: in every run all busy workers are recoverable throughout exactly when no wait lets a
  HASH without lifetime outlive its reverse key (`RunsAreRecoverableExactlyWhen`).
- Reassigning when the worker HASH is gone creates a HASH without lifetime. A busy worker stays
  recoverable through any waiting exactly when its HASH has a lifetime (`LastingExactlyWhen`), and that
  holds throughout a run exactly when every reassign finds a HASH with one
  (`RecoverableThroughTimeExactlyWhen`).
- A retried claim takes a second worker exactly when a second candidate is free
  (`RetriedClaimLeaksExactlyWhen`).
- In Redis mode the grace window of the claiming runner does not protect a call by itself: any other
  runner whose record of the worker still shows an older call can free it. No health reader frees a
  claimed call exactly when reporting delay plus probe trip fit into the grace, no release of the worker
  is under way, and every runner's record of it is empty or recent enough (`NeverFreedExactlyWhen`). In
  single-process mode the first of the three is the whole condition (`SingleRunnerIsSafeExactlyWhen`). A
  runner that records a rename of a call it has not recorded has no assignment time, hence no grace
  (`RenameKeepsGuardExactlyWhen`).
- The empty id is a claim in single-process mode and no claim in Redis mode
  (`EmptyIdSeparatesTheModes`); the two modes agree throughout exactly when ids are fresh and not empty
  and no probe takes over another reported id, which Redis is never told (`ModesAgreeExactlyWhen`,
  `AdoptedIdParts`).
- Cancelling a prewarm needs the cache entry (`CancelNeedsTheEntry`). After an eviction a seeded worker
  reports the id through any requests, until a call starts or ends there or the id is prewarmed or
  renamed again (`EvictedSeedStays`).
- Only a raised exception releases the reservation of an outbound call: a request cancelled before the
  rename leaves it on its worker (`CancelledLeavesReservationExactlyWhen`).
- The documentation of trigger_pending_webhooks says that one delivery row exists per event. A
  callback repeated after the first row is closed inserts a second row
  (`RepeatedCallbackInsertsExactlyWhenClosed`); at most one row is open at a time, unless the check for
  one fails while one is there (`EnqueueKeepsOneOpenExactlyWhen`).
- The schema's default of 5 attempts wins over WEBHOOK_MAX_ATTEMPTS for every inserted row: with all
  updates stored, the configured maximum holds in every run exactly when it is at least 5
  (`ConfiguredMaximumHoldsExactlyWhen`); its default is 4. Each lost update of the row allows one POST
  more, so the row keeps to its own attempts exactly when none is lost (`PostsBoundedExactlyWhen`,
  `OwnBoundHoldsExactlyWhen`). An empty payload leaves a row that nothing picks up again
  (`StuckExactlyWhenEmpty`). A delivery respects the backoff exactly when the row is as its trigger or
  poll saw it, or closed, or due again (`RunIsOnTimeExactlyWhen`); a trigger with an old snapshot does not
  (`StaleSnapshotIgnoresBackoff`).
- The three characters slash, star, slash already are a whole block comment for the splitter, and
  comments do not nest; the model follows the code.
- Chunking ends exactly when one chunk holds everything or the overlap is below the chunk size; of the
  chunk sizes that the knowledge-base route accepts, exactly those above 200 end with every accepted
  overlap (`AcceptedSizeHaltsExactlyWhen`).
- Between two interruptions the writes keep their interval exactly when no write was asleep at the first
  one (`PacedExactlyWhen`); a single write keeps it from the one before exactly when that one did not
  sleep or woke no later than the schedule then says (`NextWriteIsSpacedExactlyWhen`). The send interval
  is the nominal one only at sample rates that are multiples of 100 Hz (`IntervalIsNominalExactly`).

## Model

| member | source | states |
|---|---|---|
| RedisState.FirstFree | app/services/worker_pool/redis_state.py:23-26 | every candidate before the result is busy, the result itself is free; an absent and an empty field are both free |
| RedisState.ClaimIsFirstFree | app/services/worker_pool/redis_state.py:21-33 | a claim returns the first free candidate, fails exactly when all are busy, sets both indexes of the pair and changes no other worker or call |
| RedisState.FreeingSteps | app/services/worker_pool/redis_state.py:21-58 | which scripts and waits free a busy worker, in both directions; a busy worker is never claimed |
| RedisState.StaysBusy | app/services/worker_pool/redis_state.py:21-58 | a worker stays busy through any run of scripts without a freeing step |
| RedisState.Exclusivity | app/services/worker_pool/redis_state.py:138-171 | between two successful claims of one worker there is a step that frees it, in every run, whatever candidates the caches offered |
| RedisState.ClaimLasts | app/services/worker_pool/redis_state.py:26-28 | a claim records its time; worker and reverse key are held for 24 hours, to the second |
| RedisState.RenameLasts | app/services/worker_pool/redis_state.py:53-58 | a rename holds its reverse key for 24 hours and leaves lifetime and assignment time of an existing HASH |
| RedisState.RunHolds | app/services/worker_pool/redis_state.py:21-58 | over every run of scripts that frees no worker w, w stays busy as long as the waits sum to less than what is left of its lifetime |
| RedisState.RunHoldsExactlyWhen | app/services/worker_pool/redis_state.py:21-58 | over every run of scripts that do not write its HASH, w is busy at the end if and only if they do |
| RedisState.ClaimedWorkerIsHeld | app/services/worker_pool/redis_state.py:26-28 | from a claim on: w stays busy for 24 hours of waiting through any scripts that do not free it, and exactly that long through any that do not write its HASH |
| RedisState.RetryIsIdempotent | app/services/worker_pool/redis_state.py:108-132 | a release, clear or rename run again under retries has the effect of one run |
| RedisState.ExecutionsUpToTheAnswer | app/services/worker_pool/redis_state.py:108-132 | the script runs once per lost reply and once for the first answer, and never after it |
| RedisState.RetriedClaimLeaksExactlyWhen | app/services/worker_pool/redis_state.py:159-171 | a claim run twice loses the first worker's reverse key exactly when another candidate was free |
| RedisState.RedisStateBackend.FindAndAssignScript | app/services/worker_pool/redis_state.py:21-33 | the Lua loop computes the claim function on the whole store |
| RedisState.RedisStateBackend.ReleaseAssignmentScript | app/services/worker_pool/redis_state.py:43-47 | both keys go, nothing is compared, nothing else changes |
| RedisState.RedisStateBackend.ClearWorkerState | app/services/worker_pool/redis_state.py:187-196 | only the worker's HASH goes |
| RedisState.RedisStateBackend.ReassignScript | app/services/worker_pool/redis_state.py:53-58 | the reverse key moves with a new lifetime, an existing HASH keeps its lifetime, a missing one is created without |
| RedisState.RedisStateBackend.GetWorkerForCall | app/services/worker_pool/redis_state.py:232-239 | the worker of the reverse key, if there is one |
| RedisState.RedisStateBackend.WithRetry | app/services/worker_pool/redis_state.py:108-132 | a retried release, rename or clear raises exactly when no attempt was answered; the script ran once per attempt that reached Redis, up to the first answer |
| InverseIndexes.ReleaseFreesAnotherCallExactlyWhen | app/services/worker_pool/redis_state.py:39-47 | a release of one call frees another if and only if its worker is busy with another |
| InverseIndexes.ReleaseKeepsInverseExactlyWhen | app/services/worker_pool/redis_state.py:43-47 | a release keeps the indexes mutually inverse if and only if the worker holds that call, or worker and call are both unknown |
| InverseIndexes.ClearKeepsInverseExactlyWhen | app/services/worker_pool/redis_state.py:187-196 | a clear keeps them if and only if the worker has no HASH |
| InverseIndexes.RenameKeepsInverseExactlyWhen | app/services/worker_pool/redis_state.py:53-58 | a rename keeps them if and only if the new id is not empty, the worker holds nothing but one of the two ids, and no other worker holds either |
| InverseIndexes.ClaimKeepsInverseExactlyWhen | app/services/worker_pool/redis_state.py:21-33 | a claim keeps them if and only if it fails or its id is new and not empty |
| InverseIndexes.WaitKeepsInverseExactlyWhen | app/services/worker_pool/redis_state.py:26-28 | a wait keeps them if and only if HASH and reverse key of each pair expire together |
| InverseIndexes.RunKeepsInverseExactlyWhen | app/services/worker_pool/redis_state.py:21-58 | over every run of scripts, inverse throughout if and only if each script meets its guard when it runs |
| InverseIndexes.InverseCounts | app/services/worker_pool/redis_state.py:61-80 | mutually inverse indexes have equally many keys |
| RunnerProtocol.StepKeepsRecoverableExactlyWhen | app/services/worker_pool/base.py:499-728 | every step of any runner keeps ownership and covering, and keeps busy workers recoverable if and only if it is not a wait in which a HASH without lifetime outlives its reverse key |
| RunnerProtocol.StepKeepsSound | app/services/worker_pool/base.py:499-728 | every other step of any runner keeps: each pair of id and worker in Redis, in a method under way and in a cache is the owning pair; reverse keys outlive HASHes with a lifetime; busy workers are recoverable |
| RunnerProtocol.StepKeepsRunnersOwned | app/services/worker_pool/base.py:619-651 | what method calls and caches remember stays an owning pair, also across crashes and repeated scripts |
| RunnerProtocol.RunsAreRecoverableExactlyWhen | app/services/worker_pool/base.py:671-728 | in every run with every interleaving, the id on a busy worker leads back to that worker throughout if and only if no wait lets a HASH without lifetime outlive its reverse key |
| RunnerProtocol.WaitKeepsRecoverableExactlyWhen | app/services/worker_pool/redis_state.py:26-28 | one wait keeps every busy worker recoverable if and only if no HASH without lifetime outlives its reverse key in it |
| RunnerProtocol.LastingExactlyWhen | app/services/worker_pool/redis_state.py:26-28 | busy workers stay recoverable through every wait if and only if their HASHes have a lifetime |
| RunnerProtocol.MortalExactlyWhenRenamedMortal | app/services/worker_pool/redis_state.py:53-58 | one step keeps a lifetime on every busy worker's HASH if and only if it does not rename on a HASH that is missing or has none |
| RunnerProtocol.RecoverableThroughTimeExactlyWhen | app/services/worker_pool/redis_state.py:21-58 | with arbitrary waiting in a run and after any part of it, the reverse key never expires first if and only if every reassign runs on a HASH with a lifetime |
| RunnerProtocol.ReleaseByShownIdFrees | app/services/worker_pool/base.py:671-716 | a release by the id that a busy worker shows frees that worker and no other, from every reachable state |
| SerialProtocol.StepKeepsInverseExactlyWhen | app/services/worker_pool/base.py:499-728 | a step of any runner keeps the indexes mutually inverse if and only if its script meets its guard |
| SerialProtocol.RunnersKeepInverseExactlyWhen | app/services/worker_pool/base.py:499-728 | over every run of any number of runners, with crashes, repeated scripts and stale caches: inverse throughout if and only if each script meets its guard |
| SerialProtocol.SerialIsGuarded | app/services/worker_pool/base.py:619-717 | the discipline ensures every guard |
| SerialProtocol.StepKeepsInverse | app/services/worker_pool/redis_state.py:21-58 | under the discipline each step keeps the two indexes mutually inverse |
| SerialProtocol.StepKeepsOpsTrue | app/services/worker_pool/base.py:686-717 | every method call past its lookup still holds a true pair, and no two share an id |
| SerialProtocol.SerialRunsKeepStrong | app/services/worker_pool/base.py:499-728 | the strong invariant over whole runs, any number of runners, crashes anywhere, and releases by a cache or of an orphan that name a true and idle pair |
| SerialProtocol.ReachableStatesAreInverse | app/services/worker_pool/redis_state.py:61-80 | from the empty store: mutually inverse indexes, true pairs, and as many busy workers as reverse keys |
| SerialProtocol.ScriptTouchesOnlyItsPair | app/services/worker_pool/base.py:671-717 | a looked-up release takes away its own pair and nothing else, a rename moves its own pair: a release of one call never frees another |
| SerialProtocol.StrongNeedsTheDiscipline | app/services/worker_pool/redis_state.py:39-58 | four runs that obey the weak discipline and break the strong invariant, a release by a stale cache among them |
| WorkerPool.WorkerStatus.HealthCheck | app/services/worker_pool/base.py:199-300 | the effect of one probe on the worker's fields, and which stale id is handed to a Redis release |
| WorkerPool.LocalWorkerPool.GetAndAssignWorker | app/services/worker_pool/base.py:556-579 | the first accepting worker gets the call, every other worker is as before, none exactly when none accepts |
| WorkerPool.LocalWorkerPool.GetWorkerForCall | app/services/worker_pool/base.py:609-613 | the first worker that holds the id |
| WorkerPool.LocalWorkerPool.ReassignCallSid | app/services/worker_pool/base.py:653-661 | only the holder of the old id changes, and only its id |
| WorkerPool.LocalWorkerPool.ReleaseWorker | app/services/worker_pool/base.py:738-749 | only the holder is freed |
| WorkerPool.AssignMeans | app/services/worker_pool/base.py:48-54 | a call goes to the first worker that is on no call and has failed fewer than three probes in a row, to none exactly when there is none; every other record is as before |
| WorkerPool.HolderOperationsMean | app/services/worker_pool/base.py:609-661 | a lookup finds, a reassign renames and a release frees the first holder of the id and no other worker |
| WorkerPool.ProbeMeans | app/services/worker_pool/base.py:199-300 | one probe by its answer: a failure only counts; an answer resets the count; a null answer or another id changes the call exactly when the assignment is older than 90 seconds or has no time |
| WorkerPool.FailuresCount | app/services/worker_pool/base.py:199-300 | over every trace of probes the failure count is the number of failed probes since the last answer |
| WorkerPool.UnhealthyExactlyAfterThree | app/services/worker_pool/base.py:48-54 | over every trace of probes a worker is unhealthy if and only if the last three failed |
| PoolRefinement.AssignRefines | app/services/worker_pool/base.py:499-554 | Redis mode claims the worker that the linear scan would, and list, cache and both indexes stay in agreement |
| PoolRefinement.ReassignRefines | app/services/worker_pool/base.py:619-651 | the same for reassign |
| PoolRefinement.ReleaseRefines | app/services/worker_pool/base.py:671-736 | the same for release, including the fallback scan |
| PoolRefinement.StepRefines | app/services/worker_pool/base.py:499-749 | every pool operation gives the same answer in both modes and keeps the agreement |
| PoolRefinement.StepRefinesExactlyWhen | app/services/worker_pool/base.py:499-749 | an operation keeps list, cache and both indexes in agreement if and only if the ids it gives out are fresh and no reported id is taken over |
| PoolRefinement.ModesAgreeExactlyWhen | app/services/worker_pool/base.py:499-749 | over every sequence of operations and probes the two modes agree throughout if and only if the ids are fresh and no reported id is taken over |
| PoolRefinement.RedisPoolRefinesLocalPool | app/services/worker_pool/base.py:499-749 | every such sequence of operations and probes gives the same answers in both modes |
| PoolRefinement.EmptyIdSeparatesTheModes | app/services/worker_pool/redis_state.py:25 | with the empty id the modes part: the script gives the worker out again |
| PoolRefinement.HealthRefines | app/services/worker_pool/base.py:215-248 | a probe keeps list, cache and both indexes in agreement when a stale worker is freed, its release script included |
| PoolRefinement.AdoptedIdParts | app/services/worker_pool/base.py:249-275 | a record that takes over another reported id no longer agrees with Redis |
| PoolRefinement.CandidatesMean | app/services/worker_pool/base.py:503-508 | the candidates are exactly the idle workers with fewer than three failures in a row |
| PoolRefinement.FailuresFollowProbes | app/services/worker_pool/base.py:199-300 | over every run of pool operations a worker's failure count follows its own probes alone |
| PoolRefinement.ClaimsFollowProbes | app/services/worker_pool/base.py:48-54 | over every run of pool operations: a worker whose last three probes failed gets no call, and is a candidate if and only if it is idle and they did not all fail |
| RedisMode.RedisWorkerPool.GetAndAssignWorker | app/services/worker_pool/base.py:499-554 | snapshot, claim and cache write compute the specified claim |
| RedisMode.RedisWorkerPool.RecordClaim | app/services/worker_pool/base.py:530-551 | the cache write after a claim, at whatever time; the claim is an orphan exactly when the worker has left the pool |
| RedisMode.RedisWorkerPool.GetWorkerForCall | app/services/worker_pool/base.py:585-607 | the pooled worker that the reverse key names; none when the lookup fails; a discovery is forced exactly when Redis names a worker the pool lacks |
| RedisMode.RedisWorkerPool.ReassignCallSid | app/services/worker_pool/base.py:619-651 | the whole new state of a reassign under a failing lookup and a retried script |
| RedisMode.RedisWorkerPool.LookupForRelease | app/services/worker_pool/base.py:689-700 | the retried lookup finds the worker unless every request fails |
| RedisMode.RedisWorkerPool.ReleaseWorker | app/services/worker_pool/base.py:671-736 | the whole new state of a release under failing lookups and retried scripts |
| RedisMode.ReleaseSurvivesFaults | app/services/worker_pool/base.py:689-716 | one answered lookup and one script that reached Redis suffice: the release is the faultless one |
| RedisMode.ReassignSurvivesFaults | app/services/worker_pool/base.py:620-651 | one script that reached Redis suffices: the reassign is the faultless one |
| RedisMode.LostReassignSplitsViews | app/services/worker_pool/base.py:629-646 | if the lookup failed nothing changes; if the script never reached Redis, cache and Redis part exactly when the lookup was answered, the ids differ and Redis knew the call |
| RedisMode.LostReleaseSplitsViews | app/services/worker_pool/base.py:702-736 | if no lookup was answered or no script reached Redis, cache and Redis part exactly when Redis held the call |
| WorkerSide.SparesIsExact | app/worker/main.py:925-1004 | which request halves leave a worker on its call, in both directions |
| WorkerSide.StaysOnCall | app/worker/main.py:963-983 | after start_call(s) the worker reports s through any run of requests on other ids |
| WorkerSide.AvailableBetweenCalls | app/worker/state.py:15-27 | over every run of acts the worker is available if and only if every call started was ended later |
| WorkerSide.PrewarmMeans | app/worker/main.py:892-933 | a prewarm of a cached id changes nothing; another adds its entry and seeds an idle worker only |
| WorkerSide.PushMeans | app/worker/main.py:951-990 | a push moves a worker on the old id whether or not an entry is cached, and moves an entry with its age |
| WorkerSide.CancelMeans | app/worker/main.py:993-1010 | a cancel without an entry changes nothing; another removes it and the seed of that id |
| WorkerSide.EvictionMeans | app/worker/prewarm.py:77-86 | an entry survives an eviction exactly within 60 seconds of its creation |
| WorkerSide.PushesConverge | app/worker/main.py:951-990 | from a seeded old id, any order and duplication of push and start_call ends on the new id; without either it stays |
| WorkerSide.RekeyLosesExactlyWhen | app/worker/prewarm.py:67-75 | re-keying loses an entry exactly when the new key is used by another entry |
| WorkerSide.PrewarmRenameCancelRoundTrip | app/worker/main.py:892-1004 | prewarm, rename and cancel on an idle worker give back the state before |
| WorkerSide.CancelNeedsTheEntry | app/worker/main.py:993-1004 | a cancel makes the worker idle exactly when the entry is still cached; not after eviction |
| WorkerSide.EvictedSeedStays | app/worker/main.py:951-1004 | after its entry was evicted, a seed survives any requests that do not prewarm or rename its id |
| WorkerSide.WorkerApp.StartCall | app/worker/state.py:15-19 | the act of the machine that begins a call: call and availability change, the cache does not |
| WorkerSide.WorkerApp.EndCall | app/worker/state.py:21-27 | the act that ends a call, whatever call it is |
| WorkerSide.PrewarmCache.Put | app/worker/prewarm.py:55-57 | the entry under its own id, all else unchanged |
| WorkerSide.PrewarmCache.Remove | app/worker/prewarm.py:63-65 | the entry leaves the cache and is returned |
| WorkerSide.PrewarmCache.Reassign | app/worker/prewarm.py:67-75 | the entry moves and is renamed, so that keys keep equal to the entries' ids |
| WorkerSide.PrewarmCache.EvictExpired | app/worker/prewarm.py:77-86 | exactly the entries older than the lifetime leave and are returned |
| WorkerSide.WorkerApp.Evict | app/worker/prewarm.py:77-86 | the act of eviction: the call id stays although its entry goes; exactly the entries that leave are returned |
| WorkerSide.WorkerApp.PrewarmCall | app/worker/main.py:892-933 | a new entry and a seed of an idle worker; nothing for a known id |
| WorkerSide.WorkerApp.ReassignPrewarm | app/worker/main.py:951-990 | cache and call id move by compare-and-set |
| WorkerSide.WorkerApp.CancelPrewarm | app/worker/main.py:993-1010 | entry and seed go, the entry is marked cancelled |
| HealthSafety.EventKeepsSane | app/worker/state.py:29-35 | a null snapshot under way was read before the reporting deadline, through every event |
| HealthSafety.AppliedProbeFreesNothing | app/services/worker_pool/base.py:215-263 | a probe applied to a protecting record neither frees it nor loses the protection |
| HealthSafety.EventKeepsGuard | app/services/worker_pool/base.py:199-263 | no step of any runner or of the worker frees a guarded call, forgets it, or loses the guard |
| HealthSafety.GuardedRunsKeepTheCall | app/services/worker_pool/base.py:199-263 | a guarded call keeps its worker in every run until it is over |
| HealthSafety.NeverFreedExactlyWhen | app/services/worker_pool/base.py:215-248 | no health reader of any runner frees a claimed call in any run if and only if delay and trip fit into the grace, no release is under way, and every runner's record of the worker protects it |
| HealthSafety.GuardedClaimsAreSafe | app/services/worker_pool/base.py:199-263 | over runs with any number of calls, claims that find the worker guarded are never freed by a health reader |
| HealthSafety.StaleRecordFrees | app/services/worker_pool/base.py:233-248 | a runner whose record shows an older call, or no time, frees the new call in some run |
| HealthSafety.PendingReleaseFrees | app/services/worker_pool/base.py:243-248 | a release started for an earlier call frees the new one |
| HealthSafety.LongTripFrees | app/services/worker_pool/base.py:215-224 | when delay and trip exceed the grace, some run frees the call |
| HealthSafety.RenameKeepsGuardExactlyWhen | app/services/worker_pool/base.py:638-641 | recording a rename keeps the guard if and only if the runner has recorded the assignment |
| HealthSafety.SeededWorkerReports | app/worker/state.py:15-35 | the worker's seed or start makes it report, and it keeps reporting through acts on other ids |
| HealthSafety.GraceNeedsAssignedAt | app/services/worker_pool/base.py:215-229 | within the grace a null snapshot frees the record exactly when the assignment time is missing |
| HealthSafety.SingleRunnerIsSafeExactlyWhen | app/services/worker_pool/base.py:128-134 | with one runner that records the assignment as it makes it, no probe frees a call if and only if delay and trip fit into the grace |
| UndisturbedCalls.AttemptsRunOnce | app/services/worker_pool/redis_state.py:108-132 | a script under way, run any number of times before an answered run, takes effect once and touches nothing else |
| UndisturbedCalls.ClaimCall | app/services/worker_pool/base.py:499-554 | a runner's claim with its cache write leaves the claimed store and the id in its cache; the release of an orphan undoes the claim, however often it runs |
| UndisturbedCalls.RenameCall | app/services/worker_pool/base.py:619-651 | a runner's reassign, its script run any number of times, leaves the store of one reassign and the new id in its cache |
| UndisturbedCalls.ReleaseCalls | app/services/worker_pool/base.py:671-716 | a release by the looked-up worker, or by the one the cache shows, leaves the store of one release; the cached entry is gone |
| UndisturbedCalls.ReportsAndCrashes | app/services/worker_pool/base.py:243-275 | a release after a report uses the reported id; a crash forgets calls and cache entries and changes nothing in Redis |
| UndisturbedCalls.RecordedCalls | app/services/worker_pool/base.py:499-728 | for one runner, script and record of a claim, rename or release together are the operation of the Redis pool |
| UndisturbedCalls.ProbeCall | app/services/worker_pool/base.py:199-275 | for one runner, a probe sent, answered and applied with the release it starts, however often that runs, is the health decision of the Redis pool |
| UndisturbedCalls.FateOfTrips | app/services/worker_pool/redis_state.py:108-132 | a lost probe is not applied and a lost release does not run; one without an answer may run again |
| OutboundSaga.MoveKeepsConsistent | app/routes/calls.py:384-459 | every move of the route or of anybody else keeps who holds the reservation and the provider's id |
| OutboundSaga.ForeignMoveKeepsConsistent | app/services/worker_pool/base.py:556-567 | moves of other calls, probes that free or rename other workers, and discovery leave the route's worker alone |
| OutboundSaga.PathKeepsConsistent | app/routes/calls.py:384-459 | the same over whole interleaved runs |
| OutboundSaga.ExitsAreClean | app/routes/calls.py:456-459 | on every exit no worker holds the reservation id; after a dial exactly one worker holds the provider's id |
| OutboundSaga.CancelledLeavesReservationExactlyWhen | app/routes/calls.py:456-459 | a cancelled request leaves its reservation on a worker if and only if it was cancelled before the rename |
| OutboundSaga.OwnMovesTouchNoOtherCall | app/routes/calls.py:384-459 | the route's own moves leave every other call where it is |
| OutboundSaga.UndisturbedRequests | app/routes/calls.py:384-459 | the machine's runs for each failure end with the pool and on the exit of that failure |
| OutboundSaga.InitiateOutboundCall | app/routes/calls.py:384-459 | reply and final pool of an undisturbed request, for every outcome of dial and response |
| K8sDiscovery.FoundExactlyAdmitted | app/services/worker_pool/k8s.py:45-65 | discovered are exactly the admitted pods, each with the address of its last admitted listing |
| K8sDiscovery.AdmittedExactlyWhen | app/services/worker_pool/k8s.py:45-56 | a pod is admitted exactly when it is not being deleted, has an address, and its last ContainersReady condition is true |
| K8sDiscovery.PoolIsDiscoveredPlusDraining | app/services/worker_pool/k8s.py:67-121 | the pool afterwards is exactly the admitted pods and the vanished workers with an active call |
| K8sDiscovery.VanishedIsKeptExactlyWhen | app/services/worker_pool/base.py:174-193 | a vanished worker is kept, unchanged, exactly when the cache or Redis shows it on a call, or Redis cannot be asked |
| K8sDiscovery.KeptWorkersKeepState | app/services/worker_pool/k8s.py:75-96 | a kept worker keeps its call, its assignment time and its failure count |
| K8sDiscovery.DiscoveredWorkersFollowTheirPods | app/services/worker_pool/k8s.py:57-96 | a discovered worker that is not on a call is reached at its pod's address; a new one starts idle and without failures |
| K8sDiscovery.RoundsKeepReachable | app/services/worker_pool/k8s.py:57-96 | host and address of a worker never come apart over any number of discoveries |
| K8sDiscovery.DiscoveryIsFixpoint | app/services/worker_pool/k8s.py:67-121 | the same list again changes nothing |
| K8sDiscovery.BusyAddressNeverChanges | app/services/worker_pool/k8s.py:77-91 | a worker on a call stays unchanged through any number of discoveries with any lists |
| K8sDiscovery.ListedThenPruned | app/services/worker_pool/k8s.py:67-121 | the two loops together are one reconciliation |
| K8sDiscovery.K8sWorkerPool.ReadPods | app/services/worker_pool/k8s.py:45-65 | the loop over the pods computes the discovered addresses |
| K8sDiscovery.K8sWorkerPool.AddOrUpdate | app/services/worker_pool/k8s.py:68-96 | the first loop adds and refreshes and leaves every other worker alone |
| K8sDiscovery.K8sWorkerPool.RemoveStale | app/services/worker_pool/k8s.py:98-121 | the second loop drops exactly the stale workers without an active call |
| K8sDiscovery.K8sWorkerPool.DiscoverWorkers | app/services/worker_pool/k8s.py:45-121 | the pool object ends in the reconciled state |
| Webhooks.PostConsumesFuel | app/services/webhook_service.py:418-426 | each POST uses up an attempt or closes the row; delivered and exhausted rows never change |
| Webhooks.ReplyMeans | app/services/webhook_service.py:384-532 | a reply by its status code: 2xx delivers; 429 and 5xx reschedule while attempts remain, due exactly from the wait for that attempt on; every other reply exhausts the row |
| Webhooks.OtherOutcomesMean | app/services/webhook_service.py:428-532 | a network error reschedules while attempts remain and exhausts the row otherwise; a rejected target exhausts it; an empty payload leaves it failed and never due |
| Webhooks.PostsBounded | app/services/webhook_service.py:390-576 | over every run of callbacks, triggers and polls a row is POSTed at most as often as it has attempts left and updates lost |
| Webhooks.PostsBoundedExactlyWhen | app/services/webhook_service.py:390-632 | a bound holds in every run with at most n lost updates if and only if it covers the attempts left and the n |
| Webhooks.OwnBoundHoldsExactlyWhen | app/services/webhook_service.py:575-632 | a row keeps to its own attempts in every run with at most n lost updates if and only if n is 0 |
| Webhooks.LostUpdatesPostWithoutBound | app/services/webhook_service.py:575-576 | with updates lost without limit there is a run beyond any bound |
| Webhooks.EnqueuedRowPostsBounded | schema.sql:233-234 | an enqueued row is POSTed at most 5 times and once per lost update, whatever the configured maximum |
| Webhooks.ConfiguredMaximumHoldsExactlyWhen | schema.sql:234 | with all updates stored, an enqueued row keeps to the configured maximum in every run if and only if that is at least 5 |
| Webhooks.FailuresUseEveryAttempt | app/services/webhook_service.py:579-632 | the bound is reached: retryable failures use every attempt, the last one exhausts the row |
| Webhooks.RetriesAreSpaced | app/services/webhook_worker.py:89-93 | an open row's POSTs come no earlier than the backoffs of the stored POSTs before them, counted from its retry time |
| Webhooks.PostsAreSpaced | app/services/webhook_service.py:605-632 | the k-th later POST comes no earlier than the backoffs of the stored POSTs before it, counted from the first POST |
| Webhooks.ShotIsOnTimeExactlyWhen | app/services/webhook_service.py:415-420 | a delivery started from a snapshot is on time if and only if the row is as it was seen, or closed, or due again |
| Webhooks.RunIsOnTimeExactlyWhen | app/services/webhook_worker.py:66-98 | over every run of triggers, polls and deliveries of a row: all deliveries are on time if and only if every snapshot is up to date when used |
| Webhooks.SnapshotRunsAreSpaced | app/services/webhook_service.py:605-632 | in such runs the k-th later POST comes no earlier than the backoffs of the stored POSTs before it; all first k when no update was lost |
| Webhooks.OutdatedSnapshotPostsTooEarly | app/services/webhook_service.py:224-247 | from any other snapshot the POST comes before the retry time, or on a row not to be retried |
| Webhooks.StaleSnapshotIgnoresBackoff | app/services/webhook_service.py:224-247 | a trigger that saw the row pending and runs after a failure POSTs again at once |
| Webhooks.StepKeepsOneOpen | app/services/webhook_service.py:151-172 | each step keeps at most one open row per call request and event |
| Webhooks.RunsKeepOneOpen | app/services/webhook_service.py:151-199 | the same over every run |
| Webhooks.EnqueueKeepsOneOpenExactlyWhen | app/services/webhook_service.py:151-206 | with failing statements, an enqueue keeps at most one open row per event if and only if it does not insert unchecked beside an open one |
| Webhooks.RepeatedCallbackInsertsExactlyWhenClosed | app/services/webhook_service.py:216-223 | a repeated callback inserts a second row exactly when the first is closed by then |
| Webhooks.CompletedWaitsForFallback | app/services/webhook_service.py:176-196 | a completed call's untouched row is claimable exactly from its fallback time on, any other row at once |
| Webhooks.StuckExactlyWhenEmpty | app/services/webhook_service.py:428-435 | a delivery leaves a row open and never due again exactly when its payload was empty |
| Webhooks.WebhookStore.EnqueueWebhook | app/services/webhook_service.py:72-206 | an open row of the same event is returned, otherwise one is inserted, also when the check fails; nothing without subscription or when the insert fails |
| Webhooks.TriggeredEventsDiffer | app/services/webhook_service.py:216-247 | one trigger never delivers an event twice, and a row with a stored delivery is never triggered again |
| Webhooks.TriggeredUntilStored | app/services/webhook_service.py:216-247 | over every run, a new row is triggered by its call request, also before its fallback time, if and only if no delivery of it was stored |
| Webhooks.EventNames | app/services/webhook_service.py:52-58 | the event of each terminal status; distinct statuses raise distinct events and a call in progress none |
| Webhooks.WebhookStore.SyncOutcome | app/services/call.py:301-387 | which row a terminal status creates and whether delivery starts; a completed call without recording waits for its fallback time |
| Webhooks.WebhookStore.DeliverWebhook | app/services/webhook_service.py:390-532 | the row after a delivery, for every outcome of the POST, its update stored or lost; true exactly for a success on an open row |
| Webhooks.WebhookStore.UpdateDelivery | app/services/webhook_service.py:538-576 | status and attempt are stored, the retry time is cleared, no other row changes |
| Webhooks.WebhookStore.UpdateDeliveryFailure | app/services/webhook_service.py:579-632 | exhausted when final, otherwise the next attempt after its backoff; the index is in range |
| Webhooks.WebhookStore.ProcessBatch | app/services/webhook_worker.py:66-79 | claimed rows are delivered one after the other |
| InterruptionJudge.TracksSpeech | app/worker/strategies/llm_interruption_judge.py:142-158 | the two flags are what the trace says about bot speech and greeting |
| InterruptionJudge.AtMostOneJudge | app/worker/strategies/llm_interruption_judge.py:192-212 | at most one judge is live and not asked to cancel, it is the pending one and carries the current sequence number; a live pending judge is never asked to cancel |
| InterruptionJudge.SequenceCountsSupersessions | app/worker/strategies/llm_interruption_judge.py:126-196 | the sequence number moves exactly at short final transcripts that need a judge, resets and cleanups |
| InterruptionJudge.TurnStartsMeetSpecification | app/worker/strategies/llm_interruption_judge.py:142-331 | turn starts are exactly: bot silent after greeting, long utterance, or the first non-backchannel verdict or error of a judge that nothing superseded |
| InterruptionJudge.SupersededJudgeIsSilent | app/worker/strategies/llm_interruption_judge.py:274-331 | a superseded judge never starts a turn, even if its cancellation is lost |
| InterruptionJudge.CancellationsDoNotMatter | app/worker/strategies/llm_interruption_judge.py:195-196 | whether and when cancellations arrive changes no turn start |
| InterruptionJudge.LLMInterruptionJudge.CancelPending | app/worker/strategies/llm_interruption_judge.py:130-132 | only a live pending task is asked to cancel |
| InterruptionJudge.LLMInterruptionJudge.OnReset | app/worker/strategies/llm_interruption_judge.py:126-132 | the state after a reset |
| InterruptionJudge.LLMInterruptionJudge.OnCleanup | app/worker/strategies/llm_interruption_judge.py:134-139 | the state after a cleanup |
| InterruptionJudge.LLMInterruptionJudge.ProcessFrame | app/worker/strategies/llm_interruption_judge.py:142-215 | the state after a frame and whether a turn starts |
| InterruptionJudge.LLMInterruptionJudge.FinishJudge | app/worker/strategies/llm_interruption_judge.py:274-331 | a verdict or error acts only under the current sequence number |
| SilenceNudge.AtMostOneTimer | app/worker/pipeline.py:107-124 | after any events at most one timer is pending, it is the one in the field, and sleeps a full timeout from its event |
| SilenceNudge.TimerIsNewestWindow | app/worker/pipeline.py:107-120 | the field holds the newest window's task, finished or not, until the next event that closes windows |
| SilenceNudge.LiveMeansOpen | app/worker/pipeline.py:81-124 | the pending timers are exactly the open silence windows of the trace |
| SilenceNudge.PendingOnlyWhileQuiet | app/worker/pipeline.py:81-120 | a timer is pending only while active; during bot speech exactly when wiring happened during bot speech, which the order of wiring and start rules out |
| SilenceNudge.NudgesMeetSpecification | app/worker/pipeline.py:122-149 | a nudge is sent exactly at the end of an open, full window, when the bot is silent and there is something to say |
| SilenceNudge.FullWindowBeforeNudge | app/worker/pipeline.py:62-69 | a full timeout with no user start, bot start, bot stop or end precedes every nudge |
| SilenceNudge.NudgesAreSpaced | app/worker/pipeline.py:107-149 | two nudges are a timeout apart and something reopened the window between them |
| SilenceNudge.SilenceNudgeObserver.CancelTimer | app/worker/pipeline.py:107-110 | the pending task is cancelled, the field cleared |
| SilenceNudge.SilenceNudgeObserver.StartTimer | app/worker/pipeline.py:117-120 | the old timer goes, a new one starts only when active and wired |
| SilenceNudge.SilenceNudgeObserver.ResetTimer | app/worker/pipeline.py:112-115 | no new timer while the bot speaks |
| SilenceNudge.SilenceNudgeObserver.SetPipelineTask | app/worker/pipeline.py:81-87 | wiring arms the observer and starts a timer |
| SilenceNudge.SilenceNudgeObserver.OnPushFrame | app/worker/pipeline.py:89-105 | the state after each frame |
| SilenceNudge.SilenceNudgeObserver.ResumeTimer | app/worker/pipeline.py:122-154 | what a resumed timer task does, and when a nudge is queued |
| CallMetrics.CountersMeetSpecification | app/worker/metrics.py:136-139 | interruptions are the user starts while the bot speaks, triggers all user starts |
| CallMetrics.TurnsMeetSpecification | app/worker/metrics.py:161-206 | a turn is recorded exactly at a bot start after a user stop with no bot start between, timed from the last stop, with the first readings of its window and the newest unused smart-turn value |
| CallMetrics.StateTracks | app/worker/metrics.py:150-247 | the pending fields are those readings at every point of every trace |
| CallMetrics.SynthesisSinceReset | app/worker/metrics.py:141-148 | the synthesis start is the first one since the last user stop or bot start, in a turn or not |
| CallMetrics.ReadingsOutsideTurnsAreDropped | app/worker/metrics.py:228-237 | a reading that arrives while no turn is open changes nothing |
| CallMetrics.LatenciesAreTotals | app/worker/metrics.py:167-184 | the latency list repeats the turns' totals; the first bot audio is the first bot start |
| CallMetrics.TurnsAreAppendOnly | app/worker/metrics.py:202-206 | a recorded turn never changes |
| CallMetrics.FrameExtendsTrace | app/worker/metrics.py:223-247 | a metrics frame on any trace is that trace with the frame's items, so the results over traces hold with frames |
| CallMetrics.StageMeans | app/worker/metrics.py:225-240 | which service a reading belongs to, by the words in its processor's name and their precedence |
| CallMetrics.CallMetrics.UserStartedSpeaking | app/worker/metrics.py:136-139 | the two counters |
| CallMetrics.CallMetrics.TtsBegan | app/worker/metrics.py:141-148 | only the first synthesis start counts |
| CallMetrics.CallMetrics.UserStoppedSpeaking | app/worker/metrics.py:150-159 | a new window with empty readings; the smart-turn value is used up |
| CallMetrics.CallMetrics.BotStartedSpeaking | app/worker/metrics.py:161-206 | the returned turn is the one appended, if any |
| CallMetrics.CallMetrics.BotStoppedSpeaking | app/worker/metrics.py:208-209 | the bot is silent, nothing else changes |
| CallMetrics.CallMetrics.OnItem | app/worker/metrics.py:225-247 | first readings stick; smart-turn values are kept when complete |
| CallMetrics.CallMetrics.OnMetricsFrame | app/worker/metrics.py:223-247 | the items of a frame take effect in order, up to one that raises: from the state of any trace, the new state is that of the trace with these items |
| SqlSplitter.Iterate | tests/conftest.py:160-236 | one iteration of the loop with its flags is one step of the machine with its mode; at most one flag is on; the position advances |
| SqlSplitter.Split | tests/conftest.py:136-245 | the loop returns the kept segments between semicolons read in normal mode |
| SqlSplitter.PiecesPartition | tests/conftest.py:136-245 | the raw segments concatenate back to the script |
| SqlSplitter.CutIsLocal | tests/conftest.py:160-236 | read on its own, a segment's text has its cut at the same place |
| SqlSplitter.ResplitIsIdentity | tests/conftest.py:136-150 | splitting any output statement again returns exactly that statement |
| SqlStatements.KeepMeans | tests/conftest.py:228-243 | a segment gives its text from first to last non-blank character, exactly when it holds more than blanks and one semicolon |
| SqlStatements.StatementsAreTheSegments | tests/conftest.py:136-150 | the statements are, in order and one for one, these texts of exactly those segments |
| SqlStatements.CoreIsUnique | tests/conftest.py:228-243 | a segment has one such text at most, so the previous row determines the statements |
| SqlStatements.NoCharacterIsLost | tests/conftest.py:136-245 | the non-blank characters of the statements are those of the script, in order, but for semicolons with nothing before them |
| SqlTokens.PassToken | tests/conftest.py:165-226 | the machine passes over a whole comment or string without a cut |
| SqlTokens.CutsAreSemicolonTokens | tests/conftest.py:228-236 | for any reading as tokens, the cuts are exactly its plain semicolons |
| SqlTokens.StatementsFollowTokens | tests/conftest.py:136-150 | the statements are the segments between semicolons outside every comment and string |
| SqlTokens.EveryScriptHasTokens | tests/conftest.py:139-147 | every script has a reading as tokens, so the previous row speaks about every script |
| Chunking.SplitJoin | app/services/knowledge_service.py:60-69 | joined words split back into the same words |
| Chunking.SplitsAtBlanks | app/services/knowledge_service.py:60-62 | splitting breaks at every blank: the words around a blank are those before it and those after it |
| Chunking.WordsOfWord | app/services/knowledge_service.py:60-62 | and nowhere else: a text without blanks is one word, an empty text none |
| Chunking.BlankExamples | app/services/knowledge_service.py:60-62 | tabs, line breaks, no-break and ideographic spaces separate words, letters do not |
| Chunking.JoinConcat | app/services/knowledge_service.py:67-69 | joining puts one space between words |
| Chunking.ChunkBounds | app/services/knowledge_service.py:66-72 | exactly ceil((n-overlap)/(size-overlap)) chunks: all but the last end before the last word, each has a word its predecessor lacks |
| Chunking.ChunksOverlap | app/services/knowledge_service.py:55-59 | every chunk but the last has exactly chunk_size words, and neighbours share exactly overlap words |
| Chunking.ChunksRebuildWords | app/services/knowledge_service.py:55-74 | dropping each later chunk's overlap and concatenating gives back the words |
| Chunking.TextsRebuild | app/services/knowledge_service.py:55-74 | the same from the chunk texts |
| Chunking.ChunkText | app/services/knowledge_service.py:55-74 | the loop is done within a number of rounds exactly when it ends and there are that few chunks, and then returns exactly these chunks |
| Chunking.HaltsExactlyWhen | app/services/knowledge_service.py:65-72 | the loop ends if and only if one chunk holds everything or the overlap is below the chunk size |
| Chunking.AcceptedSizeHaltsExactlyWhen | app/routes/knowledge.py:40-41 | an accepted chunk size ends with every accepted overlap on every text if and only if it is above 200 |
| AudioPacing.IntervalIsNominalExactly | app/worker/jambonz/transport.py:264-271 | the send interval never exceeds the nominal one and equals it exactly at multiples of 100 Hz |
| AudioPacing.ScheduleGrows | app/worker/jambonz/transport.py:319-326 | the schedule grows by at least one interval per completed write |
| AudioPacing.PacedExactlyWhen | app/worker/jambonz/transport.py:279-326 | after the start or an interruption: in every continuation up to the next one the m-th write after the first completes at least m intervals after it, if and only if no write was asleep |
| AudioPacing.WritesArePaced | app/worker/jambonz/transport.py:279-326 | on every trace, between interruptions, from the first write completed after the start or after an interruption that found no write asleep or one that is then cancelled; writes cancelled in their sleep change nothing |
| AudioPacing.InterruptedSleepTrace | app/worker/jambonz/transport.py:279-284 | a trace in which an interruption finds a write asleep and the next write completes at the same instant |
| AudioPacing.AsleepOnlyIfEntered | app/worker/jambonz/transport.py:291-303 | a write is under way exactly when the trace has one entered and neither completed nor cancelled |
| AudioPacing.WritesArePacedFromTheirSlot | app/worker/jambonz/transport.py:319-326 | from any write, the same counted from its scheduled time |
| AudioPacing.ScheduleIsClose | app/worker/jambonz/transport.py:319-326 | the schedule is never more than one interval ahead of the clock |
| AudioPacing.SleepIsBounded | app/worker/jambonz/transport.py:320-322 | no write sleeps longer than one interval |
| AudioPacing.FirstWriteIsFree | app/worker/jambonz/transport.py:279-326 | the first write completed after the start or such an interruption was not delayed |
| AudioPacing.NextWriteIsSpacedExactlyWhen | app/worker/jambonz/transport.py:319-326 | every next write keeps the interval from a write if and only if that one did not sleep, or woke no later than the schedule then says |
| AudioPacing.OutputTransport.Begin | app/worker/jambonz/transport.py:254-273 | the interval is set once |
| AudioPacing.OutputTransport.Interrupted | app/worker/jambonz/transport.py:279-284 | the schedule is reset |
| AudioPacing.OutputTransport.EnterWrite | app/worker/jambonz/transport.py:291-322 | a closed transport does not pace; otherwise the sleep up to the schedule |
| AudioPacing.OutputTransport.LeaveWrite | app/worker/jambonz/transport.py:323-326 | the schedule after the write |

## Left out

- SerialRunsKeepStrong: its discipline has no key expiry and no repeated scripts, and admits releases by a cache, orphan releases and admin clears only for true and idle pairs; RunnersKeepInverseExactlyWhen is exact for all of them.
- RunsAreRecoverableExactlyWhen: ids are assumed to be given to one worker each; a retried claim breaks that and is stated on its own in RetriedClaimLeaksExactlyWhen.
- NeverFreedExactlyWhen: one worker, and no key expiry. A rename is recorded only by runners that have recorded the assignment; RenameKeepsGuardExactlyWhen says what another one does. Until the deadline the worker may report anything; afterwards it reports a call until that call is over: one websocket handler per call (end_call does not compare ids, so overlapping handlers could end each other's call).
- RedisPoolRefinesLocalPool: key expiry and other runners are outside; worker order is fixed. A release that a probe starts runs at once; HealthSafety has the interleavings.
- ExitsAreClean: a release of the provider's id after the rename is assumed away, as is an id of the provider that is already in use; as is a health probe that frees or renames the route's own worker before the exit; a terminal callback before the rename is admitted. A cancelled request is an exit of its own, in CancelledLeavesReservationExactlyWhen.
- PendingOnlyWhileQuiet: app/worker/pipeline.py:651 wires the observer before the pipeline runs, so bot speech before wiring does not occur; the model allows it.
- RedisMode.RedisWorkerPool.GetWorkerForCall: the second look into the pool after a forced discovery is not modelled.
- RedisMode.RedisWorkerPool.GetAndAssignWorker: a retried claim is stated on the store only; the second attempt after a discovery on demand and the retries around both are not modelled.
- RunIsOnTimeExactlyWhen: deliveries of one row are serial; two that overlap between reading the row and updating it are not modelled.
- SyncOutcome: a trigger whose query fails is modelled in TriggerPending only.
- DiscoverWorkers: the order of the pool's dictionary is not kept; other operations between the two loops are not modelled.
- ResplitIsIdentity: the classes of blanks and alphanumerics are parameters that need only keep SQL punctuation out of both.
- ChunkText: chunk sizes below 1, which the route does not accept.
- Rounding in the metrics report, averages and medians, transcript and token counters: arithmetic on finished lists.
- Discovery on demand, the stale-assignment reaper, the admin release in single-process mode, discovery from other sources: the same steps or plain wrappers.
- HTTP, WebSocket, Redis and database transport, authentication, signatures, URL checks, rate limits, logging and tracing, configuration, provider payloads: no state that these properties depend on.
- Filling a prewarm entry with services, presigned URLs, embeddings, audio coding: calls into libraries.
