/**
 * The polling-rate controller (LocationService.kt, `adjustPollingRate` and
 * `updateRequest`): from the mode string, the active fences and the last
 * fix to a request (interval in ms, minimum movement in m), a provider
 * tier, and the resulting subscription set.
 */
module Polling {
  import opened Wrappers
  import opened Fences
  import opened Geo

  const BatterySaver := "Battery Saver"
  const HighPrecision := "High Precision"

  /** `Double.MAX_VALUE`, the start value of the minimum search. */
  const MaxDouble: real := 1.7976931348623157e308

  datatype Provider = PASSIVE | NETWORK | GPS

  /** The arguments `updateRequest` is called with: interval (ms) and minimum movement (m). */
  datatype Request = Request(interval: int, minDistance: int)

  datatype Subscription = Subscription(provider: Provider, interval: int, minDistance: int)

  /** The always-on passive subscription: every 30 s at most, no movement threshold. */
  const PassiveSubscription := Subscription(PASSIVE, 30000, 0)

  /** `fences.filter { it.isActive }`. */
  function Active(fs: seq<Geofence>): (r: seq<Geofence>)
    ensures forall g :: g in r <==> g in fs && g.isActive
    ensures forall g :: multiset(r)[g] == if g.isActive then multiset(fs)[g] else 0
    ensures |r| <= |fs|
  {
    if fs == [] then []
    else
      assert multiset(fs) == multiset{fs[0]} + multiset(fs[1..]) by {
        assert fs == [fs[0]] + fs[1..];
      }
      if fs[0].isActive then [fs[0]] + Active(fs[1..]) else Active(fs[1..])
  }

  function Max(a: real, b: real): real
  {
    if a >= b then a else b
  }

  /** `max(0.0, dist - fence.radiusInMeters)`: how far the fix is from the fence's boundary, 0 inside. */
  function BoundaryDistance(dist: Haversine, fix: Fix, f: Geofence): real
  {
    Max(0.0, CenterDistance(dist, fix, f) - f.radiusInMeters)
  }

  /**
   * The value the `minDistance` loop ends with over `fs`: the smallest
   * boundary distance, or `Double.MAX_VALUE` when there is none below it.
   */
  function MinBoundary(dist: Haversine, fix: Fix, fs: seq<Geofence>): (m: real)
    ensures 0.0 <= m <= MaxDouble
    ensures forall k :: 0 <= k < |fs| ==> m <= BoundaryDistance(dist, fix, fs[k])
    ensures m == MaxDouble || exists k :: 0 <= k < |fs| && m == BoundaryDistance(dist, fix, fs[k])
  {
    if fs == [] then MaxDouble
    else
      var init := fs[..|fs| - 1];
      var m0 := MinBoundary(dist, fix, init);
      var d := BoundaryDistance(dist, fix, fs[|fs| - 1]);
      assert forall k :: 0 <= k < |init| ==> init[k] == fs[k];
      if d < m0 then d else m0
  }

  /** The loop of `adjustPollingRate` that finds the nearest boundary among the active fences. */
  method MinDistanceToBoundary(dist: Haversine, fix: Fix, fences: seq<Geofence>) returns (minDistance: real)
    ensures minDistance == MinBoundary(dist, fix, fences)
  {
    minDistance := MaxDouble;
    for i := 0 to |fences|
      invariant minDistance == MinBoundary(dist, fix, fences[..i])
    {
      var d := CenterDistance(dist, fix, fences[i]);
      var distToBoundary := Max(0.0, d - fences[i].radiusInMeters);
      assert fences[..i + 1][..i] == fences[..i];
      if distToBoundary < minDistance {
        minDistance := distToBoundary;
      }
    }
    assert fences[..|fences|] == fences;
  }

  /** The tier table of `adjustPollingRate`; any mode string but the two named ones is Balanced. */
  function TierInterval(mode: string, minDistance: real): int
  {
    if mode == BatterySaver then
      if minDistance < 1000.0 then 300000 else 900000
    else if mode == HighPrecision then
      if minDistance < 500.0 then 15000
      else if minDistance < 2000.0 then 30000
      else 120000
    else
      if minDistance < 500.0 then 30000
      else if minDistance < 2000.0 then 60000
      else if minDistance < 10000.0 then 300000
      else 600000
  }

  /** The request `adjustPollingRate` hands to `updateRequest`. */
  function PlanRequest(mode: string, active: seq<Geofence>, fix: Option<Fix>, dist: Haversine): Request
  {
    if active == [] then Request(if mode == BatterySaver then 900000 else 600000, 500)
    else if fix.None? then Request(60000, 10)
    else Request(TierInterval(mode, MinBoundary(dist, fix.value, active)), 20)
  }

  /** The provider `updateRequest` picks for its variable-rate request. */
  function ProviderFor(mode: string, interval: int): Provider
  {
    if mode == BatterySaver then NETWORK
    else if mode == HighPrecision then GPS
    else if interval > 120000 then NETWORK
    else GPS
  }

  /** The subscriptions after `updateRequest` succeeds: passive plus the chosen request. */
  function SubscriptionsFor(mode: string, req: Request): set<Subscription>
  {
    {PassiveSubscription, Subscription(ProviderFor(mode, req.interval), req.interval, req.minDistance)}
  }

  // ---------------------------------------------------------------------
  // Properties.

  /** The tier bands, each in both directions. */
  lemma TierBands(mode: string, d: real)
    ensures mode == BatterySaver ==>
      (TierInterval(mode, d) == 300000 <==> d < 1000.0)
      && (TierInterval(mode, d) == 900000 <==> d >= 1000.0)
    ensures mode == HighPrecision ==>
      (TierInterval(mode, d) == 15000 <==> d < 500.0)
      && (TierInterval(mode, d) == 30000 <==> 500.0 <= d < 2000.0)
      && (TierInterval(mode, d) == 120000 <==> d >= 2000.0)
    ensures mode != BatterySaver && mode != HighPrecision ==>
      (TierInterval(mode, d) == 30000 <==> d < 500.0)
      && (TierInterval(mode, d) == 60000 <==> 500.0 <= d < 2000.0)
      && (TierInterval(mode, d) == 300000 <==> 2000.0 <= d < 10000.0)
      && (TierInterval(mode, d) == 600000 <==> d >= 10000.0)
  {
  }

  /** For a fixed mode, a nearer boundary never gives a longer interval. */
  lemma TierMonotone(mode: string, d1: real, d2: real)
    requires d1 <= d2
    ensures TierInterval(mode, d1) <= TierInterval(mode, d2)
  {
  }

  /** Between two fixes, the one nearer to some boundary is polled at least as often. */
  lemma PlanMonotone(mode: string, active: seq<Geofence>, dist: Haversine, near: Fix, far: Fix)
    requires active != []
    requires forall k :: 0 <= k < |active| ==>
      BoundaryDistance(dist, near, active[k]) <= BoundaryDistance(dist, far, active[k])
    ensures PlanRequest(mode, active, Some(near), dist).interval <= PlanRequest(mode, active, Some(far), dist).interval
  {
    var mFar := MinBoundary(dist, far, active);
    var mNear := MinBoundary(dist, near, active);
    if mFar != MaxDouble {
      var k :| 0 <= k < |active| && mFar == BoundaryDistance(dist, far, active[k]);
      assert mNear <= BoundaryDistance(dist, near, active[k]);
    }
    TierMonotone(mode, mNear, mFar);
  }

  /** With no active fence the plan is the idle one, whatever the fix. */
  lemma IdlePlan(mode: string, fix: Option<Fix>, dist: Haversine)
    ensures PlanRequest(mode, [], fix, dist) == Request(if mode == BatterySaver then 900000 else 600000, 500)
    ensures mode == "Balanced" ==> PlanRequest(mode, [], fix, dist).interval == 600000
  {
  }

  /** Before the first fix the plan is the bootstrap one, for every mode. */
  lemma BootstrapPlan(mode: string, active: seq<Geofence>, dist: Haversine)
    requires active != []
    ensures PlanRequest(mode, active, None, dist) == Request(60000, 10)
  {
  }

  /**
   * With a fix, the movement threshold is 20 m and the interval is the tier
   * of the nearest boundary; a fence whose boundary is within 500 m of the
   * fix makes High Precision poll every 15 s on GPS.
   */
  lemma TrackingPlan(mode: string, active: seq<Geofence>, fix: Fix, dist: Haversine, k: nat)
    requires k < |active|
    ensures PlanRequest(mode, active, Some(fix), dist).minDistance == 20
    ensures mode == HighPrecision && BoundaryDistance(dist, fix, active[k]) < 500.0 ==>
      PlanRequest(mode, active, Some(fix), dist).interval == 15000
      && ProviderFor(mode, PlanRequest(mode, active, Some(fix), dist).interval) == GPS
  {
  }

  /** The provider rule: coarse for Battery Saver, GPS for High Precision, else GPS iff at most 2 min. */
  lemma ProviderRule(mode: string, interval: int)
    ensures mode == BatterySaver ==> ProviderFor(mode, interval) == NETWORK
    ensures mode == HighPrecision ==> ProviderFor(mode, interval) == GPS
    ensures mode != BatterySaver && mode != HighPrecision ==>
      (ProviderFor(mode, interval) == GPS <==> interval <= 120000)
  {
  }

  /** The subscription set is always the passive one plus exactly one other. */
  lemma SubscriptionShape(mode: string, req: Request)
    ensures PassiveSubscription in SubscriptionsFor(mode, req)
    ensures |SubscriptionsFor(mode, req)| == 2
    ensures forall s :: s in SubscriptionsFor(mode, req) && s.provider != PASSIVE ==>
      s == Subscription(ProviderFor(mode, req.interval), req.interval, req.minDistance)
  {
  }
}
