/**
 * Position fixes and the distance they are measured with. The haversine
 * computation of the source is floating-point trigonometry; it enters the
 * model as an arbitrary function from (latitude, longitude) of the fix and
 * of the fence centre to metres, about which nothing is assumed.
 */
module Geo {
  import opened Fences

  /** A position fix as delivered by the positioning provider. */
  datatype Fix = Fix(latitude: real, longitude: real)

  /** `GeofenceUtils.calculateDistance(lat1, lon1, lat2, lon2)`. */
  type Haversine = (real, real, real, real) -> real

  /** Distance from a fix to a fence centre, arguments in the source's order. */
  function CenterDistance(dist: Haversine, fix: Fix, f: Geofence): real
  {
    dist(fix.latitude, fix.longitude, f.latitude, f.longitude)
  }
}
