/**
 * The process-wide fence store (GeofenceRepository.kt): the fence list,
 * the bounded event history and the key-value store they are saved to.
 * The lists are `seq` fields that each mutator reassigns; the store is the
 * `prefs` field, which only `save` and `savePollingMode` write.
 */
module Repository {
  import opened Wrappers
  import opened Fences
  import opened Events
  import opened Codec

  /** Capacity of the event history. */
  const MaxHistory: nat := 100

  // ---------------------------------------------------------------------
  // The history.

  /** The history after `addEvent`: the new event on top, one tail event evicted past capacity. */
  function PushEvent(h: seq<GeofenceEvent>, e: GeofenceEvent): (r: seq<GeofenceEvent>)
    ensures |r| == if |h| < MaxHistory then |h| + 1 else |h|
    ensures r[0] == e && r[1..] == h[..|r| - 1]
  {
    var grown := [e] + h;
    if |grown| > MaxHistory then grown[..|grown| - 1] else grown
  }

  /** The history after `addEvent` of each of `es`, first to last. */
  function PushAll(h: seq<GeofenceEvent>, es: seq<GeofenceEvent>): seq<GeofenceEvent>
  {
    if es == [] then h else PushEvent(PushAll(h, es[..|es| - 1]), es[|es| - 1])
  }

  /** A history within capacity stays within capacity. */
  lemma {:induction false} PushAllBounded(h: seq<GeofenceEvent>, es: seq<GeofenceEvent>)
    requires |h| <= MaxHistory
    ensures |PushAll(h, es)| <= MaxHistory
  {
    if es != [] {
      PushAllBounded(h, es[..|es| - 1]);
    }
  }

  /**
   * Starting empty, the history holds the most recent (at most 100)
   * events, newest first.
   */
  lemma {:induction false} PushAllFromEmpty(es: seq<GeofenceEvent>)
    ensures |PushAll([], es)| == if |es| < MaxHistory then |es| else MaxHistory
    ensures forall k :: 0 <= k < |PushAll([], es)| ==> PushAll([], es)[k] == es[|es| - 1 - k]
  {
    if es != [] {
      var init := es[..|es| - 1];
      PushAllFromEmpty(init);
      var prev := PushAll([], init);
      var r := PushEvent(prev, es[|es| - 1]);
      assert r == PushAll([], es);
      forall k | 0 <= k < |r| ensures r[k] == es[|es| - 1 - k] {
        if k > 0 {
          assert r[k] == r[1..][k - 1] == prev[k - 1];
        }
      }
    }
  }

  /** After 101 insertions into an empty history the first one is gone and the other 100 remain, newest first. */
  lemma HundredAndOneEvents(es: seq<GeofenceEvent>)
    requires |es| == MaxHistory + 1
    requires es[0] !in es[1..]
    ensures |PushAll([], es)| == MaxHistory
    ensures es[0] !in PushAll([], es)
    ensures forall k :: 0 <= k < MaxHistory ==> PushAll([], es)[k] == es[MaxHistory - k]
  {
    PushAllFromEmpty(es);
  }

  /** Events prepended by `addEvent` are all arrivals or departures if the old ones were. */
  lemma PushEventKeepsTransitions(h: seq<GeofenceEvent>, e: GeofenceEvent)
    requires AllTransitions(h) && IsTransition(e)
    ensures AllTransitions(PushEvent(h, e))
  {
    var r := PushEvent(h, e);
    forall k | 0 <= k < |r| ensures IsTransition(r[k]) {
      if k > 0 {
        assert r[k] == r[1..][k - 1] == h[k - 1];
      }
    }
  }

  // ---------------------------------------------------------------------
  // The fence list.

  /** `List.indexOf`: the first position holding a structurally equal element. */
  function IndexOf(fs: seq<Geofence>, g: Geofence): (i: int)
    ensures -1 <= i < |fs|
    ensures i == -1 <==> g !in fs
    ensures 0 <= i ==> fs[i] == g && g !in fs[..i]
  {
    if fs == [] then -1
    else if fs[0] == g then 0
    else
      var j := IndexOf(fs[1..], g);
      assert fs[1..][..if j < 0 then 0 else j] == fs[1..if j < 0 then 1 else j + 1];
      if j == -1 then -1 else j + 1
  }

  /** `List.indexOfFirst { it.id == id }`. */
  function IndexOfId(fs: seq<Geofence>, id: string): (i: int)
    ensures -1 <= i < |fs|
    ensures i == -1 <==> forall k :: 0 <= k < |fs| ==> fs[k].id != id
    ensures 0 <= i ==> fs[i].id == id && forall k :: 0 <= k < i ==> fs[k].id != id
  {
    if fs == [] then -1
    else if fs[0].id == id then 0
    else
      var j := IndexOfId(fs[1..], id);
      assert forall k :: 1 <= k < |fs| ==> fs[k] == fs[1..][k - 1];
      if j == -1 then -1 else j + 1
  }

  /** The list after `remove(g)`: the first structurally equal fence taken out. */
  function RemoveFirst(fs: seq<Geofence>, g: Geofence): (r: seq<Geofence>)
    ensures g !in fs ==> r == fs
    ensures g in fs ==> |r| == |fs| - 1
    ensures multiset(r) == multiset(fs) - multiset{g}
  {
    var i := IndexOf(fs, g);
    if i == -1 then fs
    else
      assert fs == fs[..i] + [fs[i]] + fs[i + 1..];
      fs[..i] + fs[i + 1..]
  }

  /** Only the first equal fence goes; the others keep their order. */
  lemma RemoveFirstDeletesFirstMatch(fs: seq<Geofence>, g: Geofence)
    requires g in fs
    ensures exists i :: 0 <= i < |fs| && fs[i] == g && g !in fs[..i] && RemoveFirst(fs, g) == fs[..i] + fs[i + 1..]
  {
    var i := IndexOf(fs, g);
    assert fs[i] == g && g !in fs[..i];
  }

  /** Whether `updateGeofenceState(id, s)` finds a fence with that id whose state differs. */
  predicate ChangesState(fs: seq<Geofence>, id: string, s: GeofenceState)
  {
    var i := IndexOfId(fs, id);
    i != -1 && fs[i].lastState != s
  }

  /** The list after `updateGeofenceState(id, s)`. */
  function SetStateById(fs: seq<Geofence>, id: string, s: GeofenceState): (r: seq<Geofence>)
    ensures |r| == |fs|
    ensures forall k :: 0 <= k < |fs| ==> r[k].id == fs[k].id && r[k].isActive == fs[k].isActive
  {
    if ChangesState(fs, id, s) then
      var i := IndexOfId(fs, id);
      fs[i := WithState(fs[i], s)]
    else fs
  }

  /**
   * Only the first fence with the id changes, only in `lastState`, and only
   * if it differs; an absent id or an equal state changes nothing.
   */
  lemma SetStateByIdFrame(fs: seq<Geofence>, id: string, s: GeofenceState)
    ensures var r := SetStateById(fs, id, s);
      var i := IndexOfId(fs, id);
      && (forall k :: 0 <= k < |fs| && k != i ==> r[k] == fs[k])
      && (i != -1 ==> r[i] == WithState(fs[i], s))
      && (r == fs <==> !ChangesState(fs, id, s))
  {
    var r := SetStateById(fs, id, s);
    var i := IndexOfId(fs, id);
    if ChangesState(fs, id, s) {
      assert r[i] != fs[i];
    }
  }

  /** No two fences share an id, as fresh UUIDs guarantee. */
  predicate UniqueIds(fs: seq<Geofence>)
  {
    forall i, j :: 0 <= i < j < |fs| ==> fs[i].id != fs[j].id
  }

  /** With unique ids, the fence with an id is found at its own position. */
  lemma IndexOfOwnId(fs: seq<Geofence>, k: nat)
    requires UniqueIds(fs) && k < |fs|
    ensures IndexOfId(fs, fs[k].id) == k
  {
  }

  /**
   * A removal with a record whose state has since changed finds nothing:
   * the list is unchanged.
   */
  lemma StaleRemoveIsNoop(fs: seq<Geofence>, f: Geofence, s: GeofenceState)
    requires UniqueIds(fs) && f in fs && s != f.lastState
    ensures RemoveFirst(SetStateById(fs, f.id, s), f) == SetStateById(fs, f.id, s)
  {
    var k :| 0 <= k < |fs| && fs[k] == f;
    IndexOfOwnId(fs, k);
    SetStateByIdFrame(fs, f.id, s);
    var r := SetStateById(fs, f.id, s);
    forall j | 0 <= j < |r| ensures r[j] != f {
      if j != k {
        assert r[j] == fs[j] && fs[j].id != f.id;
      }
    }
  }

  /**
   * Editing is remove-then-add of a copy with the same id. When the
   * selected record is stale, the remove finds nothing and the list then
   * holds two fences with that id.
   */
  lemma StaleEditDuplicatesId(fs: seq<Geofence>, f: Geofence, s: GeofenceState, edited: Geofence)
    requires UniqueIds(fs) && f in fs && s != f.lastState && edited.id == f.id
    ensures !UniqueIds(RemoveFirst(SetStateById(fs, f.id, s), f) + [edited])
  {
    StaleRemoveIsNoop(fs, f, s);
    var k :| 0 <= k < |fs| && fs[k] == f;
    var r := SetStateById(fs, f.id, s) + [edited];
    assert r[k].id == f.id == r[|r| - 1].id;
  }

  // ---------------------------------------------------------------------
  // The `forEach` loops of `save` and the `for` loops of `load`.

  /** Builds the fence array of `save`, one object per fence in list order. */
  method BuildFenceArray(fs: seq<Geofence>) returns (arr: seq<Entry>)
    ensures arr == EncodedFences(fs)
  {
    arr := [];
    for i := 0 to |fs|
      invariant |arr| == i
      invariant forall j :: 0 <= j < i ==> arr[j] == Object(EncodeFence(fs[j]))
    {
      arr := arr + [Object(EncodeFence(fs[i]))];
    }
  }

  /** Builds the history array of `save`, one object per event in history order. */
  method BuildHistoryArray(hs: seq<GeofenceEvent>) returns (arr: seq<Entry>)
    ensures arr == EncodedEvents(hs)
  {
    arr := [];
    for i := 0 to |hs|
      invariant |arr| == i
      invariant forall j :: 0 <= j < i ==> arr[j] == Object(EncodeEvent(hs[j]))
    {
      arr := arr + [Object(EncodeEvent(hs[i]))];
    }
  }

  /**
   * The loop of `load` over one parsed array: appends decoded values until
   * one throws; `complete` says whether the loop ran to the end.
   */
  method ParseArray<T>(es: seq<Entry>, decode: Entry -> Option<T>) returns (values: seq<T>, complete: bool)
    ensures values == Decoded(es, decode)
    ensures complete <==> |values| == |es|
  {
    values := [];
    var i := 0;
    while i < |es|
      invariant 0 <= i <= LeadingRun(es, decode)
      invariant |values| == i
      invariant forall j :: 0 <= j < i ==> decode(es[j]) == Some(values[j])
    {
      var v := decode(es[i]);
      if v.None? {
        complete := false;
        return;
      }
      values := values + [v.value];
      i := i + 1;
    }
    complete := true;
  }

  // ---------------------------------------------------------------------
  // The singleton.

  class GeofenceRepository {
    var geofences: seq<Geofence>
    var history: seq<GeofenceEvent>
    var prefs: Prefs

    /** The empty store of a new process, over whatever the key-value store holds. */
    constructor (stored: Prefs)
      ensures geofences == [] && history == [] && prefs == stored
    {
      geofences := [];
      history := [];
      prefs := stored;
    }

    /** The key-value store holds exactly the in-memory lists. */
    predicate Persisted()
      reads this
    {
      prefs.geofencesJson == Some(Array(EncodedFences(geofences)))
      && prefs.historyJson == Some(Array(EncodedEvents(history)))
    }

    /** `save`: both arrays are rebuilt from memory and written; the mode key is untouched. */
    method Save()
      modifies this`prefs
      ensures prefs == Saved(old(prefs), geofences, history)
      ensures Persisted()
    {
      var fenceArray := BuildFenceArray(geofences);
      var historyArray := BuildHistoryArray(history);
      prefs := prefs.(geofencesJson := Some(Array(fenceArray)), historyJson := Some(Array(historyArray)));
    }

    /** `load`: replaces the lists by what the store holds, as far as it parses. */
    method Load()
      modifies this`geofences, this`history
      ensures Lists(geofences, history) == LoadLists(old(geofences), old(history), prefs)
    {
      match prefs.geofencesJson {
        case None =>
        case Some(text) =>
          geofences := [];
          if text.Garbage? {
            return;
          }
          var loaded, complete := ParseArray(text.entries, DecodeFence);
          geofences := loaded;
          if !complete {
            return;
          }
      }
      match prefs.historyJson {
        case None =>
        case Some(text) =>
          history := [];
          if text.Garbage? {
            return;
          }
          var loaded, _ := ParseArray(text.entries, DecodeEvent);
          history := loaded;
      }
    }

    /** `addEvent`: prepend, evict one tail event past capacity, save. */
    method AddEvent(e: GeofenceEvent)
      modifies this
      ensures geofences == old(geofences)
      ensures history == PushEvent(old(history), e)
      ensures |old(history)| <= MaxHistory ==> |history| <= MaxHistory
      ensures prefs == Saved(old(prefs), geofences, history) && Persisted()
    {
      history := [e] + history;
      if |history| > MaxHistory {
        history := history[..|history| - 1];
      }
      Save();
    }

    /** `clearHistory`: empty the history, keep the fences, save. */
    method ClearHistory()
      modifies this
      ensures geofences == old(geofences) && history == []
      ensures prefs == Saved(old(prefs), geofences, history) && Persisted()
    {
      history := [];
      Save();
    }

    /** `savePollingMode`: writes the mode key only. */
    method SavePollingMode(mode: string)
      modifies this`prefs
      ensures prefs == old(prefs).(pollingMode := Some(mode))
      ensures PollingModeOf(prefs) == mode
    {
      prefs := prefs.(pollingMode := Some(mode));
    }

    /** `addGeofence`: append to the end, save. */
    method AddGeofence(g: Geofence)
      modifies this
      ensures geofences == old(geofences) + [g] && history == old(history)
      ensures prefs == Saved(old(prefs), geofences, history) && Persisted()
    {
      geofences := geofences + [g];
      Save();
    }

    /** `removeGeofence`: drop the first structurally equal fence, if any, and save either way. */
    method RemoveGeofence(g: Geofence)
      modifies this
      ensures geofences == RemoveFirst(old(geofences), g) && history == old(history)
      ensures prefs == Saved(old(prefs), geofences, history) && Persisted()
    {
      var index := IndexOf(geofences, g);
      if index != -1 {
        geofences := geofences[..index] + geofences[index + 1..];
      }
      Save();
    }

    /** `updateGeofenceState(id, newState)`, the overload without a context: memory only. */
    method UpdateGeofenceState(id: string, newState: GeofenceState)
      modifies this`geofences
      ensures geofences == SetStateById(old(geofences), id, newState)
    {
      var index := IndexOfId(geofences, id);
      if index != -1 {
        var current := geofences[index];
        if current.lastState != newState {
          geofences := geofences[index := WithState(current, newState)];
        }
      }
    }

    /** `updateGeofenceState(context, id, newState)`: the same update, saved only when something changed. */
    method UpdateGeofenceStatePersist(id: string, newState: GeofenceState)
      modifies this
      ensures geofences == SetStateById(old(geofences), id, newState) && history == old(history)
      ensures prefs == if ChangesState(old(geofences), id, newState)
                       then Saved(old(prefs), geofences, history) else old(prefs)
    {
      var index := IndexOfId(geofences, id);
      if index != -1 {
        var current := geofences[index];
        if current.lastState != newState {
          geofences := geofences[index := WithState(current, newState)];
          Save();
        }
      }
    }
  }
}
