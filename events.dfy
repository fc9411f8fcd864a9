/**
 * A recorded transition (GeofenceEvent.kt). The record is a value: its
 * fence name is a copy, so changing or removing the fence later leaves
 * recorded events as they were. The timestamp (epoch milliseconds, taken
 * from the clock by default in the source) is always supplied here.
 */
module Events {
  import opened Fences

  datatype GeofenceEvent = GeofenceEvent(
    id: string,
    fenceName: string,
    eventType: GeofenceState,
    timestamp: int)

  /** The intended use of `eventType`: an arrival or a departure, never UNKNOWN. */
  predicate IsTransition(e: GeofenceEvent)
  {
    e.eventType == INSIDE || e.eventType == OUTSIDE
  }

  /** Every event of a history is an arrival or a departure. */
  predicate AllTransitions(h: seq<GeofenceEvent>)
  {
    forall k :: 0 <= k < |h| ==> IsTransition(h[k])
  }
}
