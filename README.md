# Gird monitoring engine, modelled in Dafny

This project models the monitoring engine of the Gird Android geofencing
app. It covers:

- the fence and event records;
- the process-wide repository that holds the fence list and the bounded
  event history and saves them to a key-value store;
- the per-fence entry/exit rule with its 10 m dead band;
- the polling-rate controller, which picks a sampling interval, a movement
  threshold and a provider from the mode string, the active fences and the
  last fix;
- the 5 m debounce in front of all of it.

Modules, one per concern:

- `Wrappers`: `Option`.
- `Fences` (`Geofence.kt`): the `Geofence` datatype, with the Kotlin
  defaults as default parameter values. It also holds `GeofenceState` and
  `GeofenceColor` with their `name`/`valueOf` pair, and `WithState`, which
  models `copy(lastState = …)`.
- `Events` (`GeofenceEvent.kt`): the immutable `GeofenceEvent` value. Its
  timestamp is always supplied.
- `Geo`: a position fix, and the haversine distance as an abstract function
  `(lat1, lon1, lat2, lon2) -> metres`.
- `Codec` (`GeofenceRepository.kt`, `save`/`load`):
  - the key-value store `Prefs`, with one slot per key the core uses:
    `geofences_json`, `history_json`, `polling_mode`;
  - the JSON text abstracted to the array it parses to, or `Garbage`;
  - record encoders and decoders with the source's field names, fallbacks
    and failure points;
  - `LoadLists`, the result of `load` as a function.
- `Repository` (`GeofenceRepository.kt`):
  - the class `GeofenceRepository`, with `seq` fields `geofences` and
    `history`, the store `prefs`, and one method per mutator;
  - the pure list functions those methods are proved against: `PushEvent`,
    `RemoveFirst`, `SetStateById`;
  - the `forEach` and `for` loops of `save` and `load`, as the methods
    `BuildFenceArray`, `BuildHistoryArray` and `ParseArray`.
- `Polling` (`LocationService.kt`, `adjustPollingRate`/`updateRequest`):
  - the tier table and the provider rule;
  - the minimum-boundary-distance loop;
  - the subscription set.
- `Transition` (`LocationService.kt`, `checkGeofences`):
  - the candidate-state rule;
  - one loop iteration `Step`, the first `n` iterations `Checked`, a whole
    pass `Evaluate`, and passes over a sequence of fixes `Run`;
  - the lemmas about them.
- `Service` (`LocationService.kt`): the class `LocationService`.
  - `CheckGeofences` is the real loop over the repository. It is proved
    equal to `Evaluate`.
  - The subscriptions held with the positioning provider and the
    notifications requested are ghost fields.
  - The two distance computations are functions the service is given.

Inputs the source takes from the platform are parameters:

- the UUID of each event: `ids(i)` for the fence at position `i`;
- the clock: `now`, one timestamp per pass;
- both distance functions;
- the initial contents of the key-value store: the repository
  constructor's argument.

### Behaviour as written

These points model the code as written, even where a cleaner design would
do otherwise:

- Battery Saver polls every 5 minutes while the nearest boundary is under
  1000 m away, not under 500 m (`Polling.TierBands`).
- `removeGeofence` removes the first fence that is equal in all eight
  fields, `lastState` included. A record taken before a state change
  therefore removes nothing (`Repository.StaleRemoveIsNoop`).
- Editing a fence is remove-then-add of a copy with the same id
  (MainActivity.kt:226-227). Because of the point above, an edit from a
  stale record leaves two fences with one id
  (`Repository.StaleEditDuplicatesId`).
- A malformed fence record does not get skipped. The exception ends the
  whole `load`: the earlier fences stay loaded and the history is not read
  (`Codec.MalformedFenceAbortsLoad`). A malformed history record keeps the
  events before it.
- `load` does not cap the history at 100. `addEvent` evicts exactly one
  tail event, so a history loaded above capacity stays above it. The bound
  holds for every history that only `addEvent` built
  (`Repository.PushAllBounded`).
- The overload of `updateGeofenceState` without a context never writes to
  the store. The overload with a context writes only when it changed
  something.
- Any mode string other than "Battery Saver" and "High Precision" uses the
  Balanced tiers and provider rule.

## Model

| member | source | states |
|---|---|---|
| `Fences.WithState` | app/src/main/java/org/foss/gird/Geofence.kt:3-12 | a copy with only `lastState` changed keeps the other seven fields, and is equal to the original iff the state was already the same |
| `Fences.FreshFenceDefaults` | app/src/main/java/org/foss/gird/Geofence.kt:3-12 | a fence built from id, centre and radius alone has name "", is active, is UNKNOWN and is GREEN |
| `Fences.StateValueOf` | app/src/main/java/org/foss/gird/Geofence.kt:14-16 | `valueOf` accepts exactly the three names INSIDE, OUTSIDE and UNKNOWN, and inverts `name` on them |
| `Fences.StateCases` | app/src/main/java/org/foss/gird/Geofence.kt:14-16 | every state is one of the three, and `valueOf(name(s)) == s` |
| `Fences.ColorValueOf` | app/src/main/java/org/foss/gird/Geofence.kt:18-20 | `valueOf` accepts exactly RED, BLUE and GREEN, and inverts `name` on them |
| `Fences.ColorRoundTrip` | app/src/main/java/org/foss/gird/Geofence.kt:18-20 | `valueOf(name(c)) == c` for colours |
| `Codec.EncodeFence` | app/src/main/java/org/foss/gird/GeofenceRepository.kt:119-128 | the fence record `save` writes; `Codec.DecodeEncodeFence` states that it decodes back |
| `Codec.DecodeFence` | app/src/main/java/org/foss/gird/GeofenceRepository.kt:79-88 | the fence record `load` reads, None where `getString`/`getDouble`/`valueOf` throws; stated by `Codec.DecodeEncodeFence` and `Codec.MalformedFenceAbortsLoad` |
| `Codec.EncodeEvent` | app/src/main/java/org/foss/gird/GeofenceRepository.kt:134-139 | the event record `save` writes; `Codec.DecodeEncodeEvent` states that it decodes back |
| `Codec.DecodeEvent` | app/src/main/java/org/foss/gird/GeofenceRepository.kt:99-104 | the event record `load` reads; stated by `Codec.DecodeEncodeEvent` |
| `Codec.Saved` | app/src/main/java/org/foss/gird/GeofenceRepository.kt:142-145 | the store after `save`; stated by `Codec.LoadAfterSave` and `Codec.PollingModeDefault` |
| `Codec.LoadHistory` | app/src/main/java/org/foss/gird/GeofenceRepository.kt:93-106 | the history part of `load`; stated through `Codec.LoadLists` |
| `Codec.LoadLists` | app/src/main/java/org/foss/gird/GeofenceRepository.kt:68-110 | the lists after `load`; stated by `Codec.LoadAfterSave`, `Codec.AbsentKeysKeepLists` and `Codec.MalformedFenceAbortsLoad` |
| `Codec.PollingModeOf` | app/src/main/java/org/foss/gird/GeofenceRepository.kt:43-46 | `loadPollingMode`; stated by `Codec.PollingModeDefault` |
| `Codec.Truncate` | app/src/main/java/org/foss/gird/GeofenceRepository.kt:103 | `getLong` truncates a JSON number toward zero: the result is within 1 of the number, on the side of zero |
| `Codec.DecodeEncodeFence` | app/src/main/java/org/foss/gird/GeofenceRepository.kt:79-88 | the fence record `save` writes decodes, field by field, back to the same fence |
| `Codec.DecodeEncodeEvent` | app/src/main/java/org/foss/gird/GeofenceRepository.kt:99-104 | the event record `save` writes decodes back to the same event, the time included |
| `Codec.LeadingRun` | app/src/main/java/org/foss/gird/GeofenceRepository.kt:77-89 | the `load` loop gets through exactly the leading elements that decode; the element it stops at, if any, does not decode |
| `Codec.Decoded` | app/src/main/java/org/foss/gird/GeofenceRepository.kt:77-89 | the values `load` appends are the decodings of that leading run, in array order |
| `Codec.DecodeEncodedFences` | app/src/main/java/org/foss/gird/GeofenceRepository.kt:116-129 | decoding the whole saved fence array gives back the fence list |
| `Codec.DecodeEncodedEvents` | app/src/main/java/org/foss/gird/GeofenceRepository.kt:131-140 | decoding the whole saved history array gives back the history |
| `Codec.LoadAfterSave` | app/src/main/java/org/foss/gird/GeofenceRepository.kt:68-149 | `load` after `save` restores both lists exactly, whatever was in memory before |
| `Codec.AbsentKeysKeepLists` | app/src/main/java/org/foss/gird/GeofenceRepository.kt:73-74 | an absent fence key leaves the fence list as it was, and an absent history key leaves the history as it was; with both keys absent nothing changes |
| `Codec.MalformedFenceAbortsLoad` | app/src/main/java/org/foss/gird/GeofenceRepository.kt:74-90 | if element k is the first malformed fence record, exactly the k earlier fences are loaded and the history is untouched |
| `Codec.PollingModeDefault` | app/src/main/java/org/foss/gird/GeofenceRepository.kt:43-46 | the mode is "Balanced" when the key is absent, and reads back what `savePollingMode` stored; `save` does not touch it |
| `Repository.PushEvent` | app/src/main/java/org/foss/gird/GeofenceRepository.kt:21-25 | `addEvent` puts the event at index 0 and keeps the old events in order behind it; length grows by one below 100 and stays the same otherwise, so only the tail is dropped |
| `Repository.PushAllBounded` | app/src/main/java/org/foss/gird/GeofenceRepository.kt:21-25 | a history within 100 stays within 100 under any number of `addEvent` calls |
| `Repository.PushAllFromEmpty` | app/src/main/java/org/foss/gird/GeofenceRepository.kt:21-25 | from an empty history, `addEvent` calls leave the min(n, 100) most recent events, newest first |
| `Repository.HundredAndOneEvents` | app/src/main/java/org/foss/gird/GeofenceRepository.kt:21-25 | after 101 insertions into an empty history the first event is gone and the other 100 remain, newest first |
| `Repository.PushEventKeepsTransitions` | app/src/main/java/org/foss/gird/GeofenceRepository.kt:21-25 | prepending an arrival or departure to a history of arrivals and departures keeps it so |
| `Repository.IndexOf` | app/src/main/java/org/foss/gird/GeofenceRepository.kt:157 | the position of the first structurally equal fence, or -1 exactly when there is none |
| `Repository.IndexOfId` | app/src/main/java/org/foss/gird/GeofenceRepository.kt:165 | `indexOfFirst`: the first position whose id matches, or -1 exactly when no id matches |
| `Repository.IndexOfOwnId` | app/src/main/java/org/foss/gird/GeofenceRepository.kt:165 | with unique ids, looking up a fence's own id finds exactly that fence's position |
| `Repository.RemoveFirst` | app/src/main/java/org/foss/gird/GeofenceRepository.kt:156-159 | removal takes out one occurrence of the fence (multiset difference) and changes nothing when no equal fence is present |
| `Repository.RemoveFirstDeletesFirstMatch` | app/src/main/java/org/foss/gird/GeofenceRepository.kt:157 | the removed occurrence is the first one, and the others keep their order |
| `Repository.SetStateById` | app/src/main/java/org/foss/gird/GeofenceRepository.kt:161-176 | a state update keeps the length, every id and every active flag |
| `Repository.SetStateByIdFrame` | app/src/main/java/org/foss/gird/GeofenceRepository.kt:165-169 | only the first fence with the id changes, only in `lastState`; the list changes iff that fence exists and its state differs |
| `Repository.StaleRemoveIsNoop` | app/src/main/java/org/foss/gird/GeofenceRepository.kt:156-159 | removing a fence by a record whose state has since changed leaves the list unchanged |
| `Repository.StaleEditDuplicatesId` | app/src/main/java/org/foss/gird/MainActivity.kt:226-227 | an edit (remove then add a copy with the same id) from a stale record leaves two fences with one id |
| `Repository.BuildFenceArray` | app/src/main/java/org/foss/gird/GeofenceRepository.kt:117-129 | the `forEach` loop of `save` builds one record per fence, in list order |
| `Repository.BuildHistoryArray` | app/src/main/java/org/foss/gird/GeofenceRepository.kt:132-140 | the `forEach` loop of `save` builds one record per event, in history order |
| `Repository.ParseArray` | app/src/main/java/org/foss/gird/GeofenceRepository.kt:77-89 | the `load` loop appends the decoded leading run and reports whether it reached the end |
| `Repository.GeofenceRepository.constructor` | app/src/main/java/org/foss/gird/GeofenceRepository.kt:10-19 | the singleton starts with both lists empty, over the given store |
| `Repository.GeofenceRepository.Save` | app/src/main/java/org/foss/gird/GeofenceRepository.kt:112-149 | `save` overwrites the two array keys from memory and leaves the mode key; afterwards the store matches memory |
| `Repository.GeofenceRepository.Load` | app/src/main/java/org/foss/gird/GeofenceRepository.kt:68-110 | `load` leaves exactly the lists `LoadLists` describes (clear on a present key, abort on the first exception) |
| `Repository.GeofenceRepository.AddEvent` | app/src/main/java/org/foss/gird/GeofenceRepository.kt:21-25 | the history becomes `PushEvent` of the old one, fences unchanged, the bound of 100 kept, then saved |
| `Repository.GeofenceRepository.ClearHistory` | app/src/main/java/org/foss/gird/GeofenceRepository.kt:27-30 | the history becomes empty, fences unchanged, then saved |
| `Repository.GeofenceRepository.SavePollingMode` | app/src/main/java/org/foss/gird/GeofenceRepository.kt:37-41 | only the mode key changes, and `loadPollingMode` then returns the new mode |
| `Repository.GeofenceRepository.AddGeofence` | app/src/main/java/org/foss/gird/GeofenceRepository.kt:151-154 | the fence is appended after the unchanged earlier fences, then saved |
| `Repository.GeofenceRepository.RemoveGeofence` | app/src/main/java/org/foss/gird/GeofenceRepository.kt:156-159 | the list becomes `RemoveFirst` of the old one, then saved even when nothing was removed |
| `Repository.GeofenceRepository.UpdateGeofenceState` | app/src/main/java/org/foss/gird/GeofenceRepository.kt:161-176 | the list becomes `SetStateById` of the old one; nothing is written to the store |
| `Repository.GeofenceRepository.UpdateGeofenceStatePersist` | app/src/main/java/org/foss/gird/GeofenceRepository.kt:178-188 | the same update; the store is written iff the update changed something |
| `Polling.Active` | app/src/main/java/org/foss/gird/LocationService.kt:53 | the filter keeps exactly the active fences, each as many times as it occurs in the list, and drops every inactive one |
| `Polling.MinBoundary` | app/src/main/java/org/foss/gird/LocationService.kt:66-74 | the loop's result is at least 0, at most `Double.MAX_VALUE` and at most every fence's boundary distance, and it is one of those distances unless it is the start value |
| `Polling.MinDistanceToBoundary` | app/src/main/java/org/foss/gird/LocationService.kt:66-74 | the `forEach` loop that updates `minDistance` computes `MinBoundary` |
| `Polling.BoundaryDistance` | app/src/main/java/org/foss/gird/LocationService.kt:72 | `max(0, distance - radius)`; `Polling.MinBoundary` states the minimum over it |
| `Polling.TierInterval` | app/src/main/java/org/foss/gird/LocationService.kt:77-95 | the tier table; `Polling.TierBands` and `Polling.TierMonotone` state its bands and monotonicity |
| `Polling.PlanRequest` | app/src/main/java/org/foss/gird/LocationService.kt:51-97 | the request `adjustPollingRate` makes; stated by `Polling.IdlePlan`, `Polling.BootstrapPlan`, `Polling.TrackingPlan` and `Polling.PlanMonotone` |
| `Polling.ProviderFor` | app/src/main/java/org/foss/gird/LocationService.kt:108-112 | the provider choice; stated by `Polling.ProviderRule` |
| `Polling.SubscriptionsFor` | app/src/main/java/org/foss/gird/LocationService.kt:101-114 | the subscriptions after `updateRequest`; stated by `Polling.SubscriptionShape` |
| `Polling.TierBands` | app/src/main/java/org/foss/gird/LocationService.kt:77-95 | each mode's interval bands, each as an iff: Battery Saver 300000 below 1000 m and 900000 otherwise; High Precision 15000/30000/120000 at 500 m and 2000 m; any other string 30000/60000/300000/600000 at 500 m, 2000 m and 10000 m |
| `Polling.TierMonotone` | app/src/main/java/org/foss/gird/LocationService.kt:77-95 | for a fixed mode the interval does not decrease as the minimum boundary distance grows |
| `Polling.PlanMonotone` | app/src/main/java/org/foss/gird/LocationService.kt:66-97 | a fix at least as close to every active boundary gets an interval no longer than another fix's |
| `Polling.IdlePlan` | app/src/main/java/org/foss/gird/LocationService.kt:55-59 | with no active fence the request is (900000 for Battery Saver, else 600000; 500 m), whatever the fix; Balanced gets 600000 |
| `Polling.BootstrapPlan` | app/src/main/java/org/foss/gird/LocationService.kt:61-64 | with active fences and no fix the request is (60000, 10 m) for every mode |
| `Polling.TrackingPlan` | app/src/main/java/org/foss/gird/LocationService.kt:66-97 | with a fix the threshold is 20 m; in High Precision a boundary within 500 m gives 15000 ms on GPS |
| `Polling.ProviderRule` | app/src/main/java/org/foss/gird/LocationService.kt:108-112 | Battery Saver uses NETWORK, High Precision uses GPS, and any other mode uses GPS iff the interval is at most 120000 |
| `Polling.SubscriptionShape` | app/src/main/java/org/foss/gird/LocationService.kt:101-114 | after `updateRequest` there are exactly two subscriptions: passive (30000, 0) and the chosen provider with the request |
| `Transition.CandidateState` | app/src/main/java/org/foss/gird/LocationService.kt:137-141 | the `when` choosing the new state; its bands are stated by `Transition.CandidateBands` |
| `Transition.Commits` | app/src/main/java/org/foss/gird/LocationService.kt:142 | the commit condition; `Transition.CommitIsCrossing` states it is exactly a crossing and never leads to UNKNOWN |
| `Transition.AlertFor` | app/src/main/java/org/foss/gird/LocationService.kt:156-158 | the notification's title and text; `Transition.StepLogs` and `Transition.CheckedLog` state one per event |
| `Transition.Step` | app/src/main/java/org/foss/gird/LocationService.kt:131-152 | one loop iteration keeps the fence list's length |
| `Transition.Checked` | app/src/main/java/org/foss/gird/LocationService.kt:129-154 | any number of iterations keeps the fence list's length |
| `Transition.Evaluate` | app/src/main/java/org/foss/gird/LocationService.kt:129-154 | a whole pass keeps the fence list's length |
| `Transition.Run` | app/src/main/java/org/foss/gird/LocationService.kt:120-127 | passes over any sequence of fixes keep the fence list's length |
| `Transition.CandidateBands` | app/src/main/java/org/foss/gird/LocationService.kt:137-141 | INSIDE below the radius, OUTSIDE beyond radius + 10, the old state in between |
| `Transition.CommitIsCrossing` | app/src/main/java/org/foss/gird/LocationService.kt:137-142 | a commit happens iff the fix is inside while not recorded INSIDE, or beyond the dead band while not recorded OUTSIDE; it never goes to UNKNOWN; without a commit the candidate equals the stored state |
| `Transition.StepLogs` | app/src/main/java/org/foss/gird/LocationService.kt:142-152 | for any ids, a committing iteration pushes one event, requests one notification, leaves the store matching memory and writes no fence after its own position |
| `Transition.StepCommits` | app/src/main/java/org/foss/gird/LocationService.kt:142-152 | with unique ids a commit updates that fence's state, pushes one event, requests one notification, and leaves the store matching memory |
| `Transition.StepQuiet` | app/src/main/java/org/foss/gird/LocationService.kt:142 | an iteration without a commit changes nothing |
| `Transition.CheckedTail` | app/src/main/java/org/foss/gird/GeofenceRepository.kt:161-176 | for any ids, the first n iterations leave every fence from position n on untouched, because `indexOfFirst` on the current fence's id finds a position at or before it |
| `Transition.CheckedFences` | app/src/main/java/org/foss/gird/LocationService.kt:129-154 | with unique ids, each evaluated fence takes its candidate state if active and is unchanged if inactive; unevaluated fences are untouched; ids stay unique |
| `Transition.CheckedLog` | app/src/main/java/org/foss/gird/LocationService.kt:142-152 | for any ids, the history is the old one with the committing fences' events pushed in list order, with one alert each; no commit means no change at all; after a commit the store matches memory |
| `Transition.EvaluateFences` | app/src/main/java/org/foss/gird/LocationService.kt:129-154 | with unique ids, after a whole pass every active fence holds its candidate state, every inactive fence is unchanged, and ids stay unique |
| `Transition.EvaluateLog` | app/src/main/java/org/foss/gird/LocationService.kt:129-154 | for any ids, a whole pass pushes the committing fences' events in list order with one alert each; no event means no change at all; after an event the store matches memory |
| `Transition.EvaluateKeepsSync` | app/src/main/java/org/foss/gird/LocationService.kt:144-151 | for any ids, a pass that starts with the store matching memory ends that way |
| `Transition.QuietPass` | app/src/main/java/org/foss/gird/LocationService.kt:142 | a pass in which no active fence commits leaves fences, history, store and alerts unchanged |
| `Transition.DeadBandRunIsQuiet` | app/src/main/java/org/foss/gird/LocationService.kt:137-142 | any sequence of fixes inside every active fence's dead band produces no event and no state change |
| `Transition.FenceInBandUntouched` | app/src/main/java/org/foss/gird/LocationService.kt:137-142 | with unique ids, fixes that all lie in one fence's dead band leave that fence exactly as it was, whatever the other fences do |
| `Transition.CheckedLogsTransitions` | app/src/main/java/org/foss/gird/LocationService.kt:142-148 | events logged by the engine are INSIDE or OUTSIDE, never UNKNOWN |
| `Transition.CheckedNeverReentersUnknown` | app/src/main/java/org/foss/gird/LocationService.kt:142-151 | a fence that is not UNKNOWN never becomes UNKNOWN again |
| `Transition.InactiveFenceUntouched` | app/src/main/java/org/foss/gird/LocationService.kt:132 | with unique ids an inactive fence is unchanged by any sequence of fixes |
| `Transition.HomeScenario` | app/src/main/java/org/foss/gird/LocationService.kt:137-152 | fence Home (radius 100 m, UNKNOWN): at 50 m it becomes INSIDE with one event; at 95 m nothing changes; at 120 m it becomes OUTSIDE with a second event on top |
| `Service.LocationService.constructor` | app/src/main/java/org/foss/gird/LocationService.kt:19-25 | no last fix, no subscription, no notification |
| `Service.LocationService.OnCreate` | app/src/main/java/org/foss/gird/LocationService.kt:27-49 | loads the store, then holds the passive subscription plus the no-fix plan |
| `Service.LocationService.OnDestroy` | app/src/main/java/org/foss/gird/LocationService.kt:192-195 | every subscription is cancelled |
| `Service.LocationService.UpdateRequest` | app/src/main/java/org/foss/gird/LocationService.kt:101-118 | the subscriptions become passive (30000, 0) plus the chosen provider with the given interval and distance |
| `Service.LocationService.AdjustPollingRate` | app/src/main/java/org/foss/gird/LocationService.kt:51-98 | the subscriptions become those of `PlanRequest` for the stored mode, the active fences and the fix |
| `Service.LocationService.CheckGeofences` | app/src/main/java/org/foss/gird/LocationService.kt:129-154 | the loop over the live fence list, with its repository calls, ends in exactly the state `Evaluate` describes |
| `Service.LocationService.Debounced` | app/src/main/java/org/foss/gird/LocationService.kt:122 | the 5 m debounce test; `Service.LocationService.OnLocationChanged` states its effect |
| `Service.LocationService.OnLocationChanged` | app/src/main/java/org/foss/gird/LocationService.kt:120-127 | a fix within 5 m of the last accepted one changes nothing; otherwise it becomes the last fix, the pass `Evaluate` runs, and polling is re-planned with it |

## Left out

- Haversine distance (GeofenceUtils.kt): floating-point trigonometry. It is an arbitrary function here, with no symmetry or range claimed. The source does not clamp the intermediate term before `asin`.
- `Location.distanceTo` in the debounce is a platform computation. It is a second arbitrary function.
- Floating point: coordinates, radius and distances are exact reals. NaN, infinities and the `toFloat()` rounding of the radius on load are not modelled. `Double.MAX_VALUE` appears only as the start value of the minimum search.
- Exceptions from `requestLocationUpdates`/`removeUpdates` (provider disabled, missing permission) are I/O failures. `UpdateRequest` always succeeds.
- Notification channels, `NotificationCompat` and `startForeground`: a notification is a ghost `Alert` record. Its dedup key is the fence id itself, not the id's `hashCode()`.
- SharedPreferences and org.json are I/O and a foreign library:
  - JSON text is abstracted to the array it parses to, or to unparseable text;
  - `apply()` counts as an immediate write, and write failures are not modelled;
  - `getString`, `optString`, `optBoolean` and `getDouble` accept only a value of their own kind; Android's coercion of other scalar kinds is not modelled;
  - `getLong` on a numeric string is not modelled;
  - the exception `put` throws for NaN is not modelled.
- `saveMapState`/`loadMapState` store map-view coordinates through `doubleToRawLongBits`. They are presentation only and not modelled.
- UUID generation and `System.currentTimeMillis()` are nondeterministic. They are the parameters `ids` and `now`, and one pass uses a single timestamp for all its events.
- Timestamps are unbounded integers; the 64-bit range of `Long` is not enforced.
- The `for` loops of `load` build the list in `ParseArray` and then assign it, instead of appending to the live list one record at a time. Only a concurrent reader could see the difference.
- Concurrency between the UI and the service is not modelled; there is a single sequential writer. Whether the snapshot list's iterator tolerates an element write during `checkGeofences` (a Compose-version detail) is not modelled either. The loop reads the live list by position. Every write in the loop lands at or before the current position, so a copied list would give the same result.
- `onStartCommand`, `onBind` and the provider callbacks have no behaviour of their own.
- The UI screens and BootReceiver.kt are not part of this model. The only logic they contain is the mode cycle in the settings screen and edit-as-remove-then-add, and the repository methods cover both.
- Transition.CheckedFences: assumes unique fence ids. With duplicate ids (reachable by an edit from a stale record), a committing fence updates the first fence with its id, which may be an inactive twin.
- Transition.EvaluateFences: assumes unique fence ids, for the same reason.
- Transition.FenceInBandUntouched: assumes unique fence ids. With duplicates, a twin's commit can rewrite the fence.
- Transition.InactiveFenceUntouched: assumes unique fence ids. With duplicates, an active twin can change an inactive fence, as above.
- Transition.StepCommits: assumes unique fence ids. `Transition.Step` itself follows the code for any ids.
