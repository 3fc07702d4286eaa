# Faythe autoscaler alert and OpenSourceMano cloud cache, in Dafny

This project models two parts of the Faythe autoscaling engine and proves properties of them.

**The alert of a Scaler and one tick of its polling loop** (`pkg/autoscaler/scaler.go`).
A Scaler polls a metric query on a timer. The alert it owns records three things:
- whether the triggering condition is being observed (`Active`);
- when the current window opened (`StartedAt`);
- when actions last went out (`FiredAt`).

It also caches the result of the last cooldown check (`cooling`).

Each tick can do one of four things:
- skip, when the Scaler is disabled or the query fails;
- reset the alert, on an empty result;
- open the window, on a non-empty result while the alert is inactive;
- dispatch the Scaler's actions, when the condition has held for `Duration` and the last fire is older than `Cooldown`.

Every action that is delivered calls `fire` with its own delivery time.

Module `Autoscaler` (scaler.dfy) holds three things:
- the values (`Time`, `AlertRecord`, `AlertState`);
- the pure transition functions (`AfterReset`, `AfterStart`, `Fireable`, `AfterCooldownCheck`, `AfterFire`, `AfterDeliveries`, `AfterTick`);
- the class `Alert`, whose methods update its fields in place and are proved against those functions.

Module `AutoscalerProperties` (scaler_properties.dfy) proves single-tick and multi-tick properties. It covers the timing scenarios and the evaluation lock of `run`.

Time is an integer number of nanoseconds, and `Unset` stands for Go's zero `time.Time`. A duration is a signed 64-bit value. `now.Sub(t)` is clamped to that range, the way Go's `Sub` saturates. The zero time lies so far back that `now.Sub(Unset)` is the maximum duration.

**The OpenSourceMano cloud cache** (`pkg/cloud/store/opensourcemano/store.go`). Module `ManoStore` (store.dfy) models `Store` as a class. Its field `clouds` is a map that `Set`, `Delete`, `Get` and `Load` update in place.
- `Get` serves hits from the map. On a miss it falls back to whatever the backing store answered, which is passed in as a `Fetch`.
- `Load` walks a listing of `(key, decoded value)` entries. Each cloud is keyed by the third `/`-separated part of its entry's key, and only records whose provider is `ManoType` are kept.
- `strings.Split` is modelled as `Split`, with its round trip through `Join` proved.

## Model

| member | source | states |
|---|---|---|
| `Autoscaler.AfterReset` | pkg/autoscaler/scaler.go:210-214 | reset leaves the alert inactive with `StartedAt` and `FiredAt` unset, and keeps the cooling cache |
| `Autoscaler.AfterStart` | pkg/autoscaler/scaler.go:199-202 | start opens the window at `now` (`Active`, `StartedAt = now`) and keeps `FiredAt` and the cache |
| `Autoscaler.AfterCooldownCheck` | pkg/autoscaler/scaler.go:194-197 | the cooldown check changes only the cache: true iff the last fire is at most `cooldown` old; with no fire recorded, true only for the saturated maximum cooldown |
| `Autoscaler.AfterFire` | pkg/autoscaler/scaler.go:204-208 | fire sets `FiredAt` to the given time when none is recorded or no cooldown was seen; otherwise the state is unchanged; the window is never touched |
| `Autoscaler.Clamp` | pkg/autoscaler/scaler.go:191 | the elapsed time saturates at the 64-bit duration bounds, as Go's `Sub` does |
| `Autoscaler.DeliveriesRecordLast` | pkg/autoscaler/scaler.go:134-182 | with no cooldown seen, a sequence of actions leaves `FiredAt` at the last delivery time (unchanged if none was delivered), nothing else changed |
| `Autoscaler.DeliveriesWhileCooling` | pkg/autoscaler/scaler.go:204-208 | while cooling with a fire time recorded, any number of fires leaves the alert unchanged |
| `Autoscaler.DeliveriesKeepWindow` | pkg/autoscaler/scaler.go:171-177 | dispatching actions never changes `Active`, `StartedAt` or the cooling cache |
| `Autoscaler.Alert.constructor` | pkg/autoscaler/scaler.go:58-62 | a new alert takes the decoded record, or a zero record when the configuration has none; the cache starts false |
| `Autoscaler.Alert.IsActive` | pkg/autoscaler/scaler.go:216-218 | returns whether the window is open |
| `Autoscaler.Alert.ShouldFire` | pkg/autoscaler/scaler.go:190-192 | true iff the alert is active and at least `duration` has elapsed since `StartedAt`; always false when inactive |
| `Autoscaler.Alert.IsCoolingDown` | pkg/autoscaler/scaler.go:194-197 | updates only the cache, as `AfterCooldownCheck`, and returns the new cache value |
| `Autoscaler.Alert.Start` | pkg/autoscaler/scaler.go:199-202 | the fields become `AfterStart` of the old ones |
| `Autoscaler.Alert.Fire` | pkg/autoscaler/scaler.go:204-208 | the fields become `AfterFire` of the old ones |
| `Autoscaler.Alert.Reset` | pkg/autoscaler/scaler.go:210-214 | the fields become `AfterReset` of the old ones |
| `Autoscaler.Alert.Do` | pkg/autoscaler/scaler.go:134-182 | each delivered action calls fire with its delivery time, in sequence; failed actions call nothing |
| `Autoscaler.Alert.Tick` | pkg/autoscaler/scaler.go:93-115 | one timer tick updates the fields and reports dispatch exactly as `AfterTick` does |
| `AutoscalerProperties.SkippedTickChangesNothing` | pkg/autoscaler/scaler.go:93-101 | a tick of a disabled Scaler, or one whose query failed, changes nothing and dispatches nothing |
| `AutoscalerProperties.EmptyResultResets` | pkg/autoscaler/scaler.go:104-107 | an empty result resets the alert from any state and dispatches nothing |
| `AutoscalerProperties.NonEmptyResultStartsOnce` | pkg/autoscaler/scaler.go:109-111 | a non-empty result leaves the alert active; it opens the window at `now` only if the window was closed, otherwise `StartedAt` is kept; without dispatch `FiredAt` is kept |
| `AutoscalerProperties.TickKeepsConsistent` | pkg/autoscaler/scaler.go:93-115 | one tick keeps `StartedAt` set exactly while the alert is active |
| `AutoscalerProperties.DispatchCondition` | pkg/autoscaler/scaler.go:112-114 | actions go out iff the Scaler is active, the result is non-empty, the window (opened by this tick if it was closed) has lasted at least `duration`, and the last fire is not within `cooldown` |
| `AutoscalerProperties.LastDeliveryIsDelivered` | pkg/autoscaler/scaler.go:171-177 | the last delivery time is the delivery time of some action of the tick |
| `AutoscalerProperties.DispatchRecordsLastDelivery` | pkg/autoscaler/scaler.go:112-113 | after a dispatching tick the alert is active, the cache false, `StartedAt` as before (or `now`), and `FiredAt` the last delivery time (unchanged if every action failed) |
| `AutoscalerProperties.NoRefireWithinCooldown` | pkg/autoscaler/scaler.go:112 | after a tick whose last action went out at `t`, the next tick does not dispatch while at most `cooldown` has elapsed since `t` |
| `AutoscalerProperties.NoDispatchWithinCooldown` | pkg/autoscaler/scaler.go:93-115 | over any sequence of ticks: with a fire recorded at `t`, while no result is empty and every tick is within `cooldown` of `t`, no tick dispatches and `FiredAt` stays `t` |
| `AutoscalerProperties.ResetEndsCooldown` | pkg/autoscaler/scaler.go:105-107 | a reset clears `FiredAt`, so with duration 0 and cooldown 60s, hits at 0 and 20 around an empty result at 10 both dispatch |
| `AutoscalerProperties.NoDispatchBeforeDuration` | pkg/autoscaler/scaler.go:190-192 | a window opened at `t0` dispatches nothing before `t0 + duration` |
| `AutoscalerProperties.FireableExactlyAtDuration` | pkg/autoscaler/scaler.go:190-192 | the duration test is inclusive: false one nanosecond before `StartedAt + duration`, true at it |
| `AutoscalerProperties.RunKeepsConsistent` | pkg/autoscaler/scaler.go:84-118 | over any sequence of ticks, `StartedAt` stays set exactly while the alert is active |
| `AutoscalerProperties.FiredAtNonDecreasing` | pkg/autoscaler/scaler.go:204-208 | except on a reset a tick never moves `FiredAt` back, given deliveries no earlier than the tick |
| `AutoscalerProperties.ZeroDurationsDispatchEveryTick` | pkg/autoscaler/scaler.go:74-76 | with duration and cooldown 0 (what unparsable strings become) every non-empty tick after the last delivery dispatches, the first one at once |
| `AutoscalerProperties.ScenarioFireThenCooldown` | pkg/autoscaler/scaler.go:93-115 | with duration 30s and cooldown 60s and hits every 10s: the window opens at 0, fires at 30, not at 40 or 90 (exactly 60s later is still cooling), fires again at 100 |
| `AutoscalerProperties.ScenarioResetRestartsWindow` | pkg/autoscaler/scaler.go:93-115 | hits at 0 and 10, empty at 20, hits from 30: reset at 20, the window reopens at 30, the first fire is at 60 |
| `AutoscalerProperties.AsWrittenBlocksAfterEmptyResult` | pkg/autoscaler/scaler.go:104-107 | as written, an empty result followed by a successful query leaves the loop blocked on its own lock, and no later tick changes anything |
| `AutoscalerProperties.ReleasingNeverBlocks` | pkg/autoscaler/scaler.go:104-115 | with the lock released on every path, the loop never blocks over any sequence of ticks, and its alert follows the lock-free tick |
| `ManoStore.SplitJoin` | pkg/cloud/store/opensourcemano/store.go:99 | joining the parts of a split with the separator gives back the key, and no part contains the separator |
| `ManoStore.SplitWithoutSeparator` | pkg/cloud/store/opensourcemano/store.go:99 | a string without the separator splits into itself alone |
| `ManoStore.SplitAtSeparator` | pkg/cloud/store/opensourcemano/store.go:99 | splitting `a/b` gives the parts of `a` followed by the parts of `b` |
| `ManoStore.KeyIdOfPath` | pkg/cloud/store/opensourcemano/store.go:99 | the ID of a key `/<prefix>/<id>` is `id` |
| `ManoStore.KeyIdNeedsTwoSeparators` | pkg/cloud/store/opensourcemano/store.go:99 | a key with fewer than two separators has no third part |
| `ManoStore.Lookup` | pkg/cloud/store/opensourcemano/store.go:39-61 | `Get` with the lock problem of the Findings corrected: a hit returns the cached record and leaves the cache alone; found iff the key is cached afterwards; a miss that finds nothing returns the zero record with the cache unchanged; a miss that finds a record caches only it, and its provider is `ManoType` |
| `ManoStore.MissFoundIff` | pkg/cloud/store/opensourcemano/store.go:46-58 | on a miss, found iff the backing store answered without error with exactly one value that decodes with provider `ManoType`, and that value is returned |
| `ManoStore.FoundStaysCached` | pkg/cloud/store/opensourcemano/store.go:43-60 | after a `Get` finds a record, a later `Get` of that key returns it from the cache whatever the backing store answers |
| `ManoStore.GetAsWrittenDeadlocksOnFetchedRecord` | pkg/cloud/store/opensourcemano/store.go:40-41 | as written, a miss whose backing store answers with one OpenSourceMano record never returns: `Set` waits for the read lock `Get` still holds |
| `ManoStore.LookupAgreesWhereAsWrittenReturns` | pkg/cloud/store/opensourcemano/store.go:39-61 | the corrected `Lookup` returns exactly what the code as written returns whenever that returns, and where it would wait it returns and caches the fetched record |
| `ManoStore.LastAdmittedIsLast` | pkg/cloud/store/opensourcemano/store.go:98-107 | the reference value of an ID is the record of the listed `ManoType` entry with that ID after which no other such entry follows; none iff no entry has that ID |
| `ManoStore.LoadSucceedsIff` | pkg/cloud/store/opensourcemano/store.go:98-108 | walking the listing succeeds iff every key has a third part and every value decodes; it never reports the listing error |
| `ManoStore.LoadContents` | pkg/cloud/store/opensourcemano/store.go:98-107 | after a successful walk every ID holds the record of the last `ManoType` entry with that ID, and if there is none, what the cache held before (absent stays absent) |
| `ManoStore.LoadKeepsCached` | pkg/cloud/store/opensourcemano/store.go:98-107 | walking the listing never removes a cached ID, whether it succeeds or stops early |
| `ManoStore.LoadPrefix` | pkg/cloud/store/opensourcemano/store.go:98-107 | loading a well-formed prefix succeeds, and the rest continues from the cache it produced |
| `ManoStore.LoadStopsAtFirstBadEntry` | pkg/cloud/store/opensourcemano/store.go:99-103 | the first entry that fails to decode gives a decode error, and the first key without a third part a panic; either way the cache holds what the entries before it added |
| `ManoStore.ListErrorChangesNothing` | pkg/cloud/store/opensourcemano/store.go:93-96 | a failed listing reports an error and leaves the cache unchanged |
| `ManoStore.Store.constructor` | pkg/cloud/store/opensourcemano/store.go:84-89 | a new store has an empty cache |
| `ManoStore.Store.Get` | pkg/cloud/store/opensourcemano/store.go:39-61 | the result and the new cache are those of `Lookup` on the old cache |
| `ManoStore.Store.Set` | pkg/cloud/store/opensourcemano/store.go:64-70 | the key maps to the value; every other key is unchanged |
| `ManoStore.Store.Delete` | pkg/cloud/store/opensourcemano/store.go:73-79 | the key is absent and every other key unchanged; deleting an absent key leaves the map as it was |
| `ManoStore.Store.Load` | pkg/cloud/store/opensourcemano/store.go:92-109 | the outcome and the new cache are those of `LoadAll` on the old cache: a listing error, or the walk of the entries with `Set` for each `ManoType` record |

## Findings

| source | as written | input that shows it | evidently intended | confidence | as-written member | corrected member |
|---|---|---|---|---|---|---|
| pkg/autoscaler/scaler.go:104-107 | on an empty result the loop resets the alert and `continue`s while still holding `s.mtx`, which is a non-reentrant mutex | an active Scaler gets an empty result, then a successful query on a later tick: that tick's `s.mtx.Lock()` waits on the loop's own goroutine for ever, and `stop()` hangs too, since the loop never sees `done` | release the lock on every path out of the critical section | not executed | `AutoscalerProperties.AsWrittenBlocksAfterEmptyResult` (on `TickAsWritten`) | `AutoscalerProperties.ReleasingNeverBlocks` (on `TickReleasing`) |
| pkg/cloud/store/opensourcemano/store.go:40-41 | `Get` holds `s.mtx.RLock()` until it returns, and on a miss whose backing record decodes with provider `ManoType` it calls `Set`, whose `s.mtx.Lock()` (line 65) waits for every reader to leave | a key not in the cache whose backing store answers with one OpenSourceMano record: `Get` never returns, and every later `RLock` queues behind the waiting writer | cache the fetched record and return it, taking the write lock only after the read lock is released | not executed | `ManoStore.GetAsWrittenDeadlocksOnFetchedRecord` (on `LookupAsWritten`) | `ManoStore.Lookup` (with `ManoStore.LookupAgreesWhereAsWrittenReturns`) |

The rest of the model follows the corrected behaviour. `Alert.Tick` and `AfterTick` have no lock at all, and `ReleasingNeverBlocks` proves that the corrected loop follows them tick for tick. `Store.Get` follows `Lookup`: its found-on-miss branch, and the found side of `MissFoundIff` and `FoundStaysCached`, describe the corrected `Get`, not the code as written.

## Behaviour kept from the code

- Unparsable `Duration` and `Cooldown` strings become 0 (scaler.go:75-76); nothing rejects them. The model takes already-parsed durations, which may be 0. `ZeroDurationsDispatchEveryTick` shows the result: the Scaler dispatches on every non-empty tick that comes after its last delivery.
- An unparsable `Interval` string also becomes 0 (scaler.go:74), and `time.NewTicker` panics on a zero interval (scaler.go:77), so that Scaler never ticks. The ticker is not part of the model.
- With no fire recorded, the cooldown check is true only when `cooldown` is the largest duration, because the elapsed time since the zero time saturates.
- `isCoolingDown` runs only when `shouldFire` is true, because of Go's `&&` short-circuit. On other ticks the cache keeps its old value.
- A fire records each action's own delivery time. The last delivery in sequence order wins.
- `reset` clears `FiredAt` as well as `StartedAt` (scaler.go:213), so an empty result ends a cooldown early: `ResetEndsCooldown` shows two dispatches 20s apart under a 60s cooldown.

## Left out

- Goroutines, `sync.RWMutex`, `sync.WaitGroup`, the `done`/`terminated` channels, `stop()` and the ticker: concurrency. Ticks and each action's `fire` are sequential steps. Only the two lock problems under Findings are modelled: the unreleased lock as a flag, the self-deadlock as an outcome of `LookupAsWritten`.
- Three concurrency bugs are neither modelled nor verified:
  - `wg.Add` is called inside each goroutine rather than before it starts.
  - A failed action never calls `wg.Done`.
  - The goroutines read the shared loop variable `a`, so an action may use another action's method and retry settings.
- Concurrent `fire` calls from several actions race on `FiredAt`. This is not modelled either.
- `Get` holds the read lock while it calls `Set`, which takes the write lock (store.go:40-41, 55, 65). This is a self-deadlock on every miss whose backing record decodes with provider `ManoType`; it is recorded under Findings and modelled only there (`LookupAsWritten`). `Lookup`, `MissFoundIff`, `FoundStaysCached` and `Store.Get` state the corrected behaviour for that branch.
- `retry-go` and HTTP (scaler.go:128-170): the fixed and backoff delays, the attempts cap and retrying only on timeouts are library and network behaviour. Each action's overall outcome is an input: `Delivered(at)` or `Failed`.
- The delay `switch` (scaler.go:153-160) has no default, so for a `DelayType` other than `fixed` or `backoff` the delay function is nil. Calling it on the first timeout retry panics inside the goroutine and ends the process. The `Delivered`/`Failed` input cannot express this outcome.
- The metric backend `QueryInstant`: external I/O. It is reduced to three outcomes: error, empty result, non-empty result.
- `json.Unmarshal` and `time.ParseDuration`: foreign library calls. The model takes decoded records (`None` for a decode failure) and parsed durations.
- etcd `DoGet` and the distributed lock field `dlock`: cluster I/O and coordination. The path `Get` looks up, `common.Path(model.DefaultCloudPrefix, key)`, is not modelled. Only the answer is passed in.
- `exporter.ReportNumberOfClouds`, `cluster.GetID` and the logging calls: telemetry with no effect on the state.
- The process-wide `s`, `InitStore` and the package-level `Get()`: the model constructs a `Store` object instead. `Load` is a method of it.
- The wall clock: the several `time.Now()` calls of a tick are one `now`. A clock going backwards is not excluded.
- `pkg/model` is not part of this model. `ManoType` is given the value `"opensourcemano"`, but no property depends on that value. `Cloud` keeps only the provider, plus one field that stands for the rest of the record.
- `Autoscaler.Alert`: the Go type holds a pointer to the Scaler's `model.Alert` record. Here the record is a field of the class, so aliasing between the Scaler and its alert is not modelled.
