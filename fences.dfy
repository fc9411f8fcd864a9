/**
 * The fence record and its two enumerations (Geofence.kt).
 *
 * Coordinates and the radius are doubles and a float in the source; here
 * they are exact reals. The enumerations carry the `name`/`valueOf` pair
 * that persistence relies on.
 */
module Fences {
  import opened Wrappers

  /** The state a fence was last observed in; a new fence starts UNKNOWN. */
  datatype GeofenceState = INSIDE | OUTSIDE | UNKNOWN

  /** Presentation colour; monitoring never looks at it. */
  datatype GeofenceColor = RED | BLUE | GREEN

  /**
   * A circular boundary. The defaults are those of the Kotlin data class,
   * so `Geofence(id := i, latitude := a, longitude := b, radiusInMeters := r)`
   * builds a fresh fence. Equality is structural over all eight fields.
   */
  datatype Geofence = Geofence(
    id: string,
    name: string := "",
    latitude: real,
    longitude: real,
    radiusInMeters: real,
    isActive: bool := true,
    lastState: GeofenceState := UNKNOWN,
    color: GeofenceColor := GREEN)

  /** `fence.copy(lastState = s)`. */
  function WithState(f: Geofence, s: GeofenceState): (g: Geofence)
    ensures g.lastState == s
    ensures g.id == f.id && g.name == f.name && g.latitude == f.latitude
         && g.longitude == f.longitude && g.radiusInMeters == f.radiusInMeters
         && g.isActive == f.isActive && g.color == f.color
    ensures g == f <==> f.lastState == s
  {
    f.(lastState := s)
  }

  /** `GeofenceState.name`. */
  function StateName(s: GeofenceState): string
  {
    match s
    case INSIDE => "INSIDE"
    case OUTSIDE => "OUTSIDE"
    case UNKNOWN => "UNKNOWN"
  }

  /** `GeofenceState.valueOf`: None stands for its IllegalArgumentException. */
  function StateValueOf(name: string): (r: Option<GeofenceState>)
    ensures r.Some? <==> name == "INSIDE" || name == "OUTSIDE" || name == "UNKNOWN"
    ensures r.Some? ==> StateName(r.value) == name
  {
    if name == "INSIDE" then Some(INSIDE)
    else if name == "OUTSIDE" then Some(OUTSIDE)
    else if name == "UNKNOWN" then Some(UNKNOWN)
    else None
  }

  /** `GeofenceColor.name`. */
  function ColorName(c: GeofenceColor): string
  {
    match c
    case RED => "RED"
    case BLUE => "BLUE"
    case GREEN => "GREEN"
  }

  /** `GeofenceColor.valueOf`: None stands for its IllegalArgumentException. */
  function ColorValueOf(name: string): (r: Option<GeofenceColor>)
    ensures r.Some? <==> name == "RED" || name == "BLUE" || name == "GREEN"
    ensures r.Some? ==> ColorName(r.value) == name
  {
    if name == "RED" then Some(RED)
    else if name == "BLUE" then Some(BLUE)
    else if name == "GREEN" then Some(GREEN)
    else None
  }

  /** A fence built with only its required fields takes every default. */
  lemma FreshFenceDefaults(id: string, latitude: real, longitude: real, radius: real)
    ensures var f := Geofence(id := id, latitude := latitude, longitude := longitude, radiusInMeters := radius);
      f.name == "" && f.isActive && f.lastState == UNKNOWN && f.color == GREEN
  {
  }

  /** The state enumeration has exactly three values, with distinct names. */
  lemma StateCases(s: GeofenceState)
    ensures s == INSIDE || s == OUTSIDE || s == UNKNOWN
    ensures StateValueOf(StateName(s)) == Some(s)
  {
  }

  /** `valueOf(name)` inverts `name` for colours too. */
  lemma ColorRoundTrip(c: GeofenceColor)
    ensures ColorValueOf(ColorName(c)) == Some(c)
  {
  }
}
