/**
 * The persisted form of the repository (GeofenceRepository.kt, `save` and
 * `load`). The key-value store holds, under "geofences_json" and
 * "history_json", the text of a JSON array of string-keyed objects, and
 * under "polling_mode" a plain string. The JSON text is abstracted to the
 * array it parses to, or to `Garbage` when it does not parse; an element
 * is an object (a string-keyed record of scalar fields) or something else.
 */
module Codec {
  import opened Wrappers
  import opened Fences
  import opened Events

  /** A scalar JSON value: all JSON numbers are one kind, as in the text. */
  datatype Field = Str(s: string) | Num(x: real) | Bool(b: bool)

  type Record = map<string, Field>

  /** An element of a parsed array: `getJSONObject(i)` fails on `Other`. */
  datatype Entry = Object(fields: Record) | Other

  /** Stored JSON text: an array, or text that `JSONArray(...)` rejects. */
  datatype JsonText = Array(entries: seq<Entry>) | Garbage

  /** The three keys of the store the core reads; None is an absent key. */
  datatype Prefs = Prefs(
    geofencesJson: Option<JsonText>,
    historyJson: Option<JsonText>,
    pollingMode: Option<string>)

  const DefaultPollingMode := "Balanced"

  // ---------------------------------------------------------------------
  // org.json accessors. A None result is the JSONException the getter throws.

  function GetString(r: Record, key: string): Option<string>
  {
    if key in r && r[key].Str? then Some(r[key].s) else None
  }

  function OptString(r: Record, key: string, fallback: string): string
  {
    if key in r && r[key].Str? then r[key].s else fallback
  }

  function GetDouble(r: Record, key: string): Option<real>
  {
    if key in r && r[key].Num? then Some(r[key].x) else None
  }

  function OptBoolean(r: Record, key: string, fallback: bool): bool
  {
    if key in r && r[key].Bool? then r[key].b else fallback
  }

  /** `Number.longValue()`: truncation toward zero. */
  function Truncate(x: real): (n: int)
    ensures 0.0 <= x ==> 0 <= n && n as real <= x < n as real + 1.0
    ensures x < 0.0 ==> n <= 0 && n as real - 1.0 < x <= n as real
  {
    if x >= 0.0 then x.Floor else -((-x).Floor)
  }

  function GetLong(r: Record, key: string): Option<int>
  {
    if key in r && r[key].Num? then Some(Truncate(r[key].x)) else None
  }

  // ---------------------------------------------------------------------
  // Records as `save` writes them and `load` reads them.

  /** The object `save` builds for one fence. */
  function EncodeFence(f: Geofence): Record
  {
    map[
      "id" := Str(f.id),
      "name" := Str(f.name),
      "latitude" := Num(f.latitude),
      "longitude" := Num(f.longitude),
      "radius" := Num(f.radiusInMeters),
      "isActive" := Bool(f.isActive),
      "lastState" := Str(StateName(f.lastState)),
      "color" := Str(ColorName(f.color))]
  }

  /**
   * The fence `load` builds from one array element, or None where one of
   * its getters or `valueOf` throws. The optional fields fall back to the
   * constructor's defaults.
   */
  function DecodeFence(e: Entry): Option<Geofence>
  {
    if !e.Object? then None
    else
      var r := e.fields;
      var id := GetString(r, "id");
      var latitude := GetDouble(r, "latitude");
      var longitude := GetDouble(r, "longitude");
      var radius := GetDouble(r, "radius");
      var state := StateValueOf(OptString(r, "lastState", "UNKNOWN"));
      var color := ColorValueOf(OptString(r, "color", "GREEN"));
      if id.None? || latitude.None? || longitude.None? || radius.None? || state.None? || color.None? then None
      else Some(Geofence(
        id := id.value,
        name := OptString(r, "name", ""),
        latitude := latitude.value,
        longitude := longitude.value,
        radiusInMeters := radius.value,
        isActive := OptBoolean(r, "isActive", true),
        lastState := state.value,
        color := color.value))
  }

  /** The object `save` builds for one event. */
  function EncodeEvent(e: GeofenceEvent): Record
  {
    map[
      "id" := Str(e.id),
      "name" := Str(e.fenceName),
      "type" := Str(StateName(e.eventType)),
      "time" := Num(e.timestamp as real)]
  }

  /** The event `load` builds from one array element; every field is required. */
  function DecodeEvent(e: Entry): Option<GeofenceEvent>
  {
    if !e.Object? then None
    else
      var r := e.fields;
      var id := GetString(r, "id");
      var name := GetString(r, "name");
      var typeName := GetString(r, "type");
      var time := GetLong(r, "time");
      if id.None? || name.None? || typeName.None? || time.None? then None
      else
        var eventType := StateValueOf(typeName.value);
        if eventType.None? then None
        else Some(GeofenceEvent(id.value, name.value, eventType.value, time.value))
  }

  lemma DecodeEncodeFence(f: Geofence)
    ensures DecodeFence(Object(EncodeFence(f))) == Some(f)
  {
    StateCases(f.lastState);
    ColorRoundTrip(f.color);
  }

  lemma DecodeEncodeEvent(e: GeofenceEvent)
    ensures DecodeEvent(Object(EncodeEvent(e))) == Some(e)
  {
    StateCases(e.eventType);
    assert (e.timestamp as real).Floor == e.timestamp;
  }

  // ---------------------------------------------------------------------
  // Whole arrays.

  /** The array `save` builds from the fence list, in list order. */
  function EncodedFences(fs: seq<Geofence>): seq<Entry>
  {
    seq(|fs|, i requires 0 <= i < |fs| => Object(EncodeFence(fs[i])))
  }

  /** The array `save` builds from the history, in history order. */
  function EncodedEvents(hs: seq<GeofenceEvent>): seq<Entry>
  {
    seq(|hs|, i requires 0 <= i < |hs| => Object(EncodeEvent(hs[i])))
  }

  /**
   * How many leading elements the `load` loop gets through: it stops at the
   * first element whose decoding throws, because the exception leaves the
   * loop (and the rest of `load`).
   */
  function LeadingRun<T>(es: seq<Entry>, decode: Entry -> Option<T>): (n: nat)
    ensures n <= |es|
    ensures forall i :: 0 <= i < n ==> decode(es[i]).Some?
    ensures n < |es| ==> decode(es[n]).None?
  {
    if es == [] || decode(es[0]).None? then 0
    else
      var n := 1 + LeadingRun(es[1..], decode);
      assert forall i :: 1 <= i < n ==> es[i] == es[1..][i - 1];
      n
  }

  /** The values `load` appends before it stops, in array order. */
  function Decoded<T>(es: seq<Entry>, decode: Entry -> Option<T>): (r: seq<T>)
    ensures |r| == LeadingRun(es, decode)
    ensures forall i :: 0 <= i < |r| ==> decode(es[i]) == Some(r[i])
  {
    var n := LeadingRun(es, decode);
    seq(n, i requires 0 <= i < n => decode(es[i]).value)
  }

  // ---------------------------------------------------------------------
  // The store before and after.

  /** The store after `save`: both arrays overwritten, the mode key untouched. */
  function Saved(p: Prefs, fs: seq<Geofence>, hs: seq<GeofenceEvent>): Prefs
  {
    p.(geofencesJson := Some(Array(EncodedFences(fs))), historyJson := Some(Array(EncodedEvents(hs))))
  }

  /** The in-memory lists, as `load` leaves them. */
  datatype Lists = Lists(fences: seq<Geofence>, history: seq<GeofenceEvent>)

  /** The history part of `load`, reached only if the fence part did not throw. */
  function LoadHistory(fs: seq<Geofence>, hs: seq<GeofenceEvent>, text: Option<JsonText>): Lists
  {
    match text
    case None => Lists(fs, hs)
    case Some(Garbage) => Lists(fs, [])
    case Some(Array(es)) => Lists(fs, Decoded(es, DecodeEvent))
  }

  /**
   * The lists after `load` from store `p`, starting from `fs` and `hs`.
   * A present key clears its list before parsing; an exception anywhere
   * ends the whole `load`, keeping what was appended so far.
   */
  function LoadLists(fs: seq<Geofence>, hs: seq<GeofenceEvent>, p: Prefs): Lists
  {
    match p.geofencesJson
    case None => LoadHistory(fs, hs, p.historyJson)
    case Some(Garbage) => Lists([], hs)
    case Some(Array(es)) =>
      var loaded := Decoded(es, DecodeFence);
      if |loaded| < |es| then Lists(loaded, hs)
      else LoadHistory(loaded, hs, p.historyJson)
  }

  /** `loadPollingMode`: the stored string, or "Balanced" when absent. */
  function PollingModeOf(p: Prefs): string
  {
    if p.pollingMode.Some? then p.pollingMode.value else DefaultPollingMode
  }

  // ---------------------------------------------------------------------
  // Properties of persistence.

  /** Every element `save` writes decodes back to the fence it came from. */
  lemma DecodeEncodedFences(fs: seq<Geofence>)
    ensures Decoded(EncodedFences(fs), DecodeFence) == fs
  {
    var es := EncodedFences(fs);
    forall i | 0 <= i < |fs| ensures DecodeFence(es[i]) == Some(fs[i]) {
      DecodeEncodeFence(fs[i]);
    }
  }

  /** Every element `save` writes decodes back to the event it came from. */
  lemma DecodeEncodedEvents(hs: seq<GeofenceEvent>)
    ensures Decoded(EncodedEvents(hs), DecodeEvent) == hs
  {
    var es := EncodedEvents(hs);
    forall i | 0 <= i < |hs| ensures DecodeEvent(es[i]) == Some(hs[i]) {
      DecodeEncodeEvent(hs[i]);
    }
  }

  /** `save` then `load` restores both lists, whatever was in memory before. */
  lemma LoadAfterSave(p: Prefs, fs: seq<Geofence>, hs: seq<GeofenceEvent>, fs0: seq<Geofence>, hs0: seq<GeofenceEvent>)
    ensures LoadLists(fs0, hs0, Saved(p, fs, hs)) == Lists(fs, hs)
  {
    DecodeEncodedFences(fs);
    DecodeEncodedEvents(hs);
  }

  /** An absent key leaves its list as it was. */
  lemma AbsentKeysKeepLists(fs: seq<Geofence>, hs: seq<GeofenceEvent>, p: Prefs)
    ensures p.geofencesJson.None? ==> LoadLists(fs, hs, p).fences == fs
    ensures p.historyJson.None? ==> LoadLists(fs, hs, p).history == hs
    ensures p.geofencesJson.None? && p.historyJson.None? ==> LoadLists(fs, hs, p) == Lists(fs, hs)
  {
  }

  /**
   * A malformed fence element at index k (the first one) aborts `load`:
   * exactly the k earlier fences are loaded and the history is not touched.
   */
  lemma MalformedFenceAbortsLoad(fs: seq<Geofence>, hs: seq<GeofenceEvent>, p: Prefs, k: nat)
    requires p.geofencesJson.Some? && p.geofencesJson.value.Array?
    requires k < |p.geofencesJson.value.entries|
    requires DecodeFence(p.geofencesJson.value.entries[k]).None?
    requires forall i :: 0 <= i < k ==> DecodeFence(p.geofencesJson.value.entries[i]).Some?
    ensures LoadLists(fs, hs, p).history == hs
    ensures |LoadLists(fs, hs, p).fences| == k
    ensures forall i :: 0 <= i < k ==>
      Some(LoadLists(fs, hs, p).fences[i]) == DecodeFence(p.geofencesJson.value.entries[i])
  {
    var es := p.geofencesJson.value.entries;
    assert LeadingRun(es, DecodeFence) == k;
  }

  /** The polling mode defaults to "Balanced" and otherwise reads back what was stored. */
  lemma PollingModeDefault(p: Prefs, mode: string, fs: seq<Geofence>, hs: seq<GeofenceEvent>)
    ensures p.pollingMode.None? ==> PollingModeOf(p) == "Balanced"
    ensures PollingModeOf(p.(pollingMode := Some(mode))) == mode
    ensures PollingModeOf(Saved(p, fs, hs)) == PollingModeOf(p)
  {
  }
}
