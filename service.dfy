/**
 * The foreground service (LocationService.kt) with its platform calls
 * replaced by state: the subscriptions it holds with the positioning
 * provider and the notifications it has requested are ghost fields, the
 * two distance computations are functions it is given.
 */
module Service {
  import opened Wrappers
  import opened Fences
  import opened Events
  import opened Geo
  import opened Codec
  import opened Repository
  import opened Polling
  import opened Transition

  /** A fix closer than this to the last accepted one is dropped. */
  const DebounceMeters: real := 5.0

  class LocationService {
    const repo: GeofenceRepository
    /** `GeofenceUtils.calculateDistance`. */
    const haversine: Haversine
    /** `Location.distanceTo`, the platform's own fix-to-fix distance. */
    const distanceTo: (Fix, Fix) -> real

    var lastLocation: Option<Fix>
    ghost var subscriptions: set<Subscription>
    ghost var alerts: seq<Alert>

    constructor (repo: GeofenceRepository, haversine: Haversine, distanceTo: (Fix, Fix) -> real)
      ensures this.repo == repo && this.haversine == haversine && this.distanceTo == distanceTo
      ensures lastLocation == None && subscriptions == {} && alerts == []
    {
      this.repo := repo;
      this.haversine := haversine;
      this.distanceTo := distanceTo;
      lastLocation := None;
      subscriptions := {};
      alerts := [];
    }

    /** What a pass of `checkGeofences` reads and writes. */
    ghost function EngineState(): Engine
      reads this, repo
    {
      Engine(repo.geofences, repo.history, repo.prefs, alerts)
    }

    /** The debounce test of `onLocationChanged`. */
    predicate Debounced(last: Option<Fix>, location: Fix)
    {
      last.Some? && distanceTo(location, last.value) < DebounceMeters
    }

    /** `onCreate`: load the store, register the passive subscription, plan without a fix. */
    method OnCreate()
      modifies this, repo
      ensures Lists(repo.geofences, repo.history) == LoadLists(old(repo.geofences), old(repo.history), repo.prefs)
      ensures repo.prefs == old(repo.prefs)
      ensures lastLocation == old(lastLocation) && alerts == old(alerts)
      ensures var mode := PollingModeOf(repo.prefs);
        subscriptions == SubscriptionsFor(mode, PlanRequest(mode, Active(repo.geofences), None, haversine))
    {
      repo.Load();
      subscriptions := subscriptions + {PassiveSubscription};
      AdjustPollingRate(None);
    }

    /** `onDestroy`: every subscription is cancelled. */
    method OnDestroy()
      modifies this`subscriptions
      ensures subscriptions == {}
    {
      subscriptions := {};
    }

    /**
     * `updateRequest`: cancel everything this listener holds, re-register
     * the passive subscription, request the chosen provider.
     */
    method UpdateRequest(interval: int, minDistance: int, mode: string)
      modifies this`subscriptions
      ensures subscriptions == SubscriptionsFor(mode, Request(interval, minDistance))
    {
      subscriptions := {};
      subscriptions := subscriptions + {PassiveSubscription};
      var provider := ProviderFor(mode, interval);
      subscriptions := subscriptions + {Subscription(provider, interval, minDistance)};
    }

    /** `adjustPollingRate`: idle, bootstrap or tiered request, depending on fences and fix. */
    method AdjustPollingRate(currentLocation: Option<Fix>)
      modifies this`subscriptions
      ensures var mode := PollingModeOf(repo.prefs);
        subscriptions == SubscriptionsFor(mode, PlanRequest(mode, Active(repo.geofences), currentLocation, haversine))
    {
      var mode := PollingModeOf(repo.prefs);
      var fences := Active(repo.geofences);
      if fences == [] {
        UpdateRequest(if mode == BatterySaver then 900000 else 600000, 500, mode);
        return;
      }
      if currentLocation.None? {
        UpdateRequest(60000, 10, mode);
        return;
      }
      var minDistance := MinDistanceToBoundary(haversine, currentLocation.value, fences);
      var newInterval := TierInterval(mode, minDistance);
      UpdateRequest(newInterval, 20, mode);
    }

    /**
     * `checkGeofences`: one pass over the live fence list. The event of the
     * fence at position i gets id `ids(i)` and timestamp `now`.
     */
    method CheckGeofences(location: Fix, ids: nat -> string, now: int)
      modifies this`alerts, repo
      ensures EngineState() == Evaluate(old(EngineState()), location, haversine, ids, now)
    {
      ghost var s0 := EngineState();
      var i := 0;
      while i < |repo.geofences|
        invariant |repo.geofences| == |s0.fences|
        invariant 0 <= i <= |s0.fences|
        invariant EngineState() == Checked(s0, i, location, haversine, ids, now)
      {
        var fence := repo.geofences[i];
        if fence.isActive {
          var distance := CenterDistance(haversine, location, fence);
          var newState := CandidateState(distance, fence);
          if newState != fence.lastState && newState != UNKNOWN {
            repo.AddEvent(GeofenceEvent(ids(i), fence.name, newState, now));
            alerts := alerts + [AlertFor(fence, newState)];
            repo.UpdateGeofenceStatePersist(fence.id, newState);
          }
        }
        i := i + 1;
      }
    }

    /**
     * `onLocationChanged`: drop a fix within 5 m of the last accepted one;
     * otherwise accept it, evaluate every fence, and re-plan polling.
     */
    method OnLocationChanged(location: Fix, ids: nat -> string, now: int)
      modifies this, repo
      ensures Debounced(old(lastLocation), location) ==>
        lastLocation == old(lastLocation) && EngineState() == old(EngineState())
        && subscriptions == old(subscriptions)
      ensures !Debounced(old(lastLocation), location) ==>
        lastLocation == Some(location)
        && EngineState() == Evaluate(old(EngineState()), location, haversine, ids, now)
        && var mode := PollingModeOf(repo.prefs);
           subscriptions == SubscriptionsFor(mode, PlanRequest(mode, Active(repo.geofences), Some(location), haversine))
    {
      var last := lastLocation;
      if last.Some? && distanceTo(location, last.value) < DebounceMeters {
        return;
      }
      lastLocation := Some(location);
      CheckGeofences(location, ids, now);
      AdjustPollingRate(Some(location));
    }
  }
}
