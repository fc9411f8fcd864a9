/**
 * The per-fence transition rule of `checkGeofences` (LocationService.kt)
 * and the effect of one pass of its loop over the fence list, as a
 * function of the repository's state before the pass. A commit prepends
 * an event (saving), requests a notification and updates the stored state
 * through the saving overload of `updateGeofenceState`.
 */
module Transition {
  import opened Wrappers
  import opened Fences
  import opened Events
  import opened Geo
  import opened Codec
  import opened Repository

  /** Width of the band outside the radius in which the previous state is kept. */
  const DeadBand: real := 10.0

  /** The `when` of `checkGeofences`: the state a fix at `distance` from the centre suggests. */
  function CandidateState(distance: real, f: Geofence): GeofenceState
  {
    if distance < f.radiusInMeters then INSIDE
    else if distance > f.radiusInMeters + DeadBand then OUTSIDE
    else f.lastState
  }

  /** `newState != fence.lastState && newState != UNKNOWN`. */
  predicate Commits(distance: real, f: Geofence)
  {
    var s := CandidateState(distance, f);
    s != f.lastState && s != UNKNOWN
  }

  /** A notification request: the dedup key (the fence id), title and text. */
  datatype Alert = Alert(key: string, title: string, text: string)

  /** What `sendGeofenceNotification` asks the notifier to show. */
  function AlertFor(f: Geofence, s: GeofenceState): Alert
  {
    Alert(f.id,
      (if s == INSIDE then "Entered " else "Exited ") + f.name,
      "You have " + (if s == INSIDE then "arrived at" else "left") + " your monitored area.")
  }

  /** The state one pass reads and writes: both lists, the store and the notifications sent. */
  datatype Engine = Engine(
    fences: seq<Geofence>,
    history: seq<GeofenceEvent>,
    prefs: Prefs,
    alerts: seq<Alert>)

  /**
   * Iteration `i` of the loop: skip an inactive fence; otherwise commit when
   * the candidate differs from the stored state and is not UNKNOWN. The
   * event id is `ids(i)` and its timestamp `now`.
   */
  function Step(s: Engine, i: nat, fix: Fix, dist: Haversine, ids: nat -> string, now: int): (r: Engine)
    requires i < |s.fences|
    ensures |r.fences| == |s.fences|
  {
    var f := s.fences[i];
    if !f.isActive then s
    else
      var newState := CandidateState(CenterDistance(dist, fix, f), f);
      if newState != f.lastState && newState != UNKNOWN then
        var h := PushEvent(s.history, GeofenceEvent(ids(i), f.name, newState, now));
        var p := Saved(s.prefs, s.fences, h);
        var fs := SetStateById(s.fences, f.id, newState);
        Engine(fs, h, if ChangesState(s.fences, f.id, newState) then Saved(p, fs, h) else p,
          s.alerts + [AlertFor(f, newState)])
      else s
  }

  /** The state after the first `n` iterations of the loop. */
  function Checked(s0: Engine, n: nat, fix: Fix, dist: Haversine, ids: nat -> string, now: int): (r: Engine)
    requires n <= |s0.fences|
    ensures |r.fences| == |s0.fences|
  {
    if n == 0 then s0 else Step(Checked(s0, n - 1, fix, dist, ids, now), n - 1, fix, dist, ids, now)
  }

  /** A whole pass of `checkGeofences` over the fence list. */
  function Evaluate(s0: Engine, fix: Fix, dist: Haversine, ids: nat -> string, now: int): (r: Engine)
    ensures |r.fences| == |s0.fences|
  {
    Checked(s0, |s0.fences|, fix, dist, ids, now)
  }

  /** Successive passes for a sequence of accepted fixes; pass `j` uses `ids(j)` and `now(j)`. */
  function Run(s0: Engine, fixes: seq<Fix>, dist: Haversine, ids: nat -> nat -> string, now: nat -> int): (r: Engine)
    ensures |r.fences| == |s0.fences|
  {
    if fixes == [] then s0
    else
      var j := |fixes| - 1;
      Evaluate(Run(s0, fixes[..j], dist, ids, now), fixes[j], dist, ids(j), now(j))
  }

  // ---------------------------------------------------------------------
  // What one pass does, fence by fence.

  /** The fence after a pass: an active one takes its candidate state. */
  function Next(f: Geofence, fix: Fix, dist: Haversine): Geofence
  {
    if f.isActive then WithState(f, CandidateState(CenterDistance(dist, fix, f), f)) else f
  }

  /** Whether the fence at position `k` commits on this fix. */
  predicate CommitsAt(fs: seq<Geofence>, k: nat, fix: Fix, dist: Haversine)
    requires k < |fs|
  {
    fs[k].isActive && Commits(CenterDistance(dist, fix, fs[k]), fs[k])
  }

  /** The events the first `n` fences log, in list order. */
  function TransitionEvents(fs: seq<Geofence>, n: nat, fix: Fix, dist: Haversine, ids: nat -> string, now: int): seq<GeofenceEvent>
    requires n <= |fs|
  {
    if n == 0 then []
    else
      var k := n - 1;
      TransitionEvents(fs, k, fix, dist, ids, now)
        + if CommitsAt(fs, k, fix, dist)
          then [GeofenceEvent(ids(k), fs[k].name, CandidateState(CenterDistance(dist, fix, fs[k]), fs[k]), now)]
          else []
  }

  /** The notifications the first `n` fences request, in list order. */
  function TransitionAlerts(fs: seq<Geofence>, n: nat, fix: Fix, dist: Haversine): seq<Alert>
    requires n <= |fs|
  {
    if n == 0 then []
    else
      var k := n - 1;
      TransitionAlerts(fs, k, fix, dist)
        + if CommitsAt(fs, k, fix, dist)
          then [AlertFor(fs[k], CandidateState(CenterDistance(dist, fix, fs[k]), fs[k]))]
          else []
  }

  /** The bands of the candidate state. */
  lemma CandidateBands(distance: real, f: Geofence)
    ensures distance < f.radiusInMeters ==> CandidateState(distance, f) == INSIDE
    ensures distance > f.radiusInMeters + DeadBand ==> CandidateState(distance, f) == OUTSIDE
    ensures f.radiusInMeters <= distance <= f.radiusInMeters + DeadBand ==> CandidateState(distance, f) == f.lastState
  {
  }

  /**
   * A commit is exactly a crossing: inside the radius while not recorded
   * INSIDE, or beyond the dead band while not recorded OUTSIDE; it never
   * moves a fence to UNKNOWN.
   */
  lemma CommitIsCrossing(distance: real, f: Geofence)
    ensures Commits(distance, f) <==>
      (distance < f.radiusInMeters && f.lastState != INSIDE)
      || (distance > f.radiusInMeters + DeadBand && f.lastState != OUTSIDE)
    ensures Commits(distance, f) ==> CandidateState(distance, f) != UNKNOWN
    ensures !Commits(distance, f) ==> WithState(f, CandidateState(distance, f)) == f
  {
  }

  lemma PushAllSnoc(h: seq<GeofenceEvent>, es: seq<GeofenceEvent>, e: GeofenceEvent)
    ensures PushAll(h, es + [e]) == PushEvent(PushAll(h, es), e)
  {
    assert (es + [e])[..|es|] == es;
  }

  lemma UniqueIdsKept(fs: seq<Geofence>, gs: seq<Geofence>)
    requires UniqueIds(fs) && |gs| == |fs|
    requires forall k :: 0 <= k < |fs| ==> gs[k].id == fs[k].id
    ensures UniqueIds(gs)
  {
  }

  /**
   * A committing iteration, for any ids: it logs one event, requests one
   * notification and leaves the store matching memory; it writes no fence
   * after its own position.
   */
  lemma StepLogs(prev: Engine, i: nat, fix: Fix, dist: Haversine, ids: nat -> string, now: int)
    requires i < |prev.fences| && CommitsAt(prev.fences, i, fix, dist)
    ensures var r := Step(prev, i, fix, dist, ids, now);
      var f := prev.fences[i];
      var ns := CandidateState(CenterDistance(dist, fix, f), f);
      && r.history == PushEvent(prev.history, GeofenceEvent(ids(i), f.name, ns, now))
      && r.alerts == prev.alerts + [AlertFor(f, ns)]
      && r.prefs == Saved(prev.prefs, r.fences, r.history)
      && (forall k :: i < k < |prev.fences| ==> r.fences[k] == prev.fences[k])
  {
    var f := prev.fences[i];
    var ns := CandidateState(CenterDistance(dist, fix, f), f);
    SetStateByIdFrame(prev.fences, f.id, ns);
    assert 0 <= IndexOfId(prev.fences, f.id) <= i;
  }

  /** With unique ids, a committing iteration updates its own fence, logs, notifies and leaves the store matching memory. */
  lemma StepCommits(prev: Engine, i: nat, fix: Fix, dist: Haversine, ids: nat -> string, now: int)
    requires UniqueIds(prev.fences) && i < |prev.fences| && CommitsAt(prev.fences, i, fix, dist)
    ensures var r := Step(prev, i, fix, dist, ids, now);
      var f := prev.fences[i];
      var ns := CandidateState(CenterDistance(dist, fix, f), f);
      && r.fences == prev.fences[i := Next(f, fix, dist)]
      && r.history == PushEvent(prev.history, GeofenceEvent(ids(i), f.name, ns, now))
      && r.alerts == prev.alerts + [AlertFor(f, ns)]
      && r.prefs == Saved(prev.prefs, r.fences, r.history)
  {
    var f := prev.fences[i];
    var ns := CandidateState(CenterDistance(dist, fix, f), f);
    IndexOfOwnId(prev.fences, i);
    assert ChangesState(prev.fences, f.id, ns);
  }

  /** An iteration that does not commit changes nothing, and its fence is already its `Next`. */
  lemma StepQuiet(prev: Engine, i: nat, fix: Fix, dist: Haversine, ids: nat -> string, now: int)
    requires i < |prev.fences| && !CommitsAt(prev.fences, i, fix, dist)
    ensures Step(prev, i, fix, dist, ids, now) == prev
    ensures Next(prev.fences[i], fix, dist) == prev.fences[i]
  {
    CommitIsCrossing(CenterDistance(dist, fix, prev.fences[i]), prev.fences[i]);
  }

  /** For any ids, the first `n` iterations leave every later fence untouched. */
  lemma {:induction false} CheckedTail(s0: Engine, n: nat, fix: Fix, dist: Haversine, ids: nat -> string, now: int)
    requires n <= |s0.fences|
    ensures forall k :: n <= k < |s0.fences| ==> Checked(s0, n, fix, dist, ids, now).fences[k] == s0.fences[k]
  {
    if n > 0 {
      var i := n - 1;
      CheckedTail(s0, i, fix, dist, ids, now);
      var prev := Checked(s0, i, fix, dist, ids, now);
      if CommitsAt(prev.fences, i, fix, dist) {
        StepLogs(prev, i, fix, dist, ids, now);
      } else {
        StepQuiet(prev, i, fix, dist, ids, now);
      }
    }
  }

  /** With unique ids, after `n` iterations the first `n` fences hold their `Next` value and the rest are untouched. */
  lemma {:induction false} CheckedFences(s0: Engine, n: nat, fix: Fix, dist: Haversine, ids: nat -> string, now: int)
    requires UniqueIds(s0.fences) && n <= |s0.fences|
    ensures var r := Checked(s0, n, fix, dist, ids, now);
      && (forall k :: 0 <= k < n ==> r.fences[k] == Next(s0.fences[k], fix, dist))
      && (forall k :: n <= k < |s0.fences| ==> r.fences[k] == s0.fences[k])
      && UniqueIds(r.fences)
  {
    if n > 0 {
      var i := n - 1;
      CheckedFences(s0, i, fix, dist, ids, now);
      var prev := Checked(s0, i, fix, dist, ids, now);
      if CommitsAt(prev.fences, i, fix, dist) {
        StepCommits(prev, i, fix, dist, ids, now);
      } else {
        StepQuiet(prev, i, fix, dist, ids, now);
      }
      var r := Checked(s0, n, fix, dist, ids, now);
      forall k | 0 <= k < |s0.fences| ensures r.fences[k].id == s0.fences[k].id {
        if k < n {
          assert r.fences[k] == Next(s0.fences[k], fix, dist);
        }
      }
      UniqueIdsKept(s0.fences, r.fences);
    }
  }

  /**
   * For any ids, after `n` iterations the history is the old one with
   * the events of the first `n` fences pushed in order, one notification
   * per event; nothing changes without a commit, and after a commit the
   * store matches memory.
   */
  lemma {:induction false} CheckedLog(s0: Engine, n: nat, fix: Fix, dist: Haversine, ids: nat -> string, now: int)
    requires n <= |s0.fences|
    ensures var r := Checked(s0, n, fix, dist, ids, now);
      var es := TransitionEvents(s0.fences, n, fix, dist, ids, now);
      && r.history == PushAll(s0.history, es)
      && r.alerts == s0.alerts + TransitionAlerts(s0.fences, n, fix, dist)
      && (es == [] ==> r == s0)
      && (es != [] ==> r.prefs == Saved(s0.prefs, r.fences, r.history))
  {
    if n > 0 {
      var i := n - 1;
      CheckedLog(s0, i, fix, dist, ids, now);
      CheckedTail(s0, i, fix, dist, ids, now);
      var prev := Checked(s0, i, fix, dist, ids, now);
      assert prev.fences[i] == s0.fences[i];
      var es := TransitionEvents(s0.fences, i, fix, dist, ids, now);
      if CommitsAt(prev.fences, i, fix, dist) {
        StepLogs(prev, i, fix, dist, ids, now);
        var f := s0.fences[i];
        var e := GeofenceEvent(ids(i), f.name, CandidateState(CenterDistance(dist, fix, f), f), now);
        assert TransitionEvents(s0.fences, n, fix, dist, ids, now) == es + [e];
        PushAllSnoc(s0.history, es, e);
      } else {
        StepQuiet(prev, i, fix, dist, ids, now);
        assert TransitionEvents(s0.fences, n, fix, dist, ids, now) == es;
      }
    }
  }

  /** The fences after a whole pass, with unique ids: each one is its `Next`. */
  lemma EvaluateFences(s0: Engine, fix: Fix, dist: Haversine, ids: nat -> string, now: int)
    requires UniqueIds(s0.fences)
    ensures var r := Evaluate(s0, fix, dist, ids, now);
      && (forall k :: 0 <= k < |s0.fences| ==> r.fences[k] == Next(s0.fences[k], fix, dist))
      && UniqueIds(r.fences)
  {
    CheckedFences(s0, |s0.fences|, fix, dist, ids, now);
  }

  /**
   * The log of a whole pass, for any ids: every committing fence's event
   * pushed in list order, one notification each, no change at all without
   * an event, and the store matching memory after one.
   */
  lemma EvaluateLog(s0: Engine, fix: Fix, dist: Haversine, ids: nat -> string, now: int)
    ensures var r := Evaluate(s0, fix, dist, ids, now);
      var es := TransitionEvents(s0.fences, |s0.fences|, fix, dist, ids, now);
      && r.history == PushAll(s0.history, es)
      && r.alerts == s0.alerts + TransitionAlerts(s0.fences, |s0.fences|, fix, dist)
      && (es == [] ==> r == s0)
      && (es != [] ==> r.prefs == Saved(s0.prefs, r.fences, r.history))
  {
    CheckedLog(s0, |s0.fences|, fix, dist, ids, now);
  }

  /** The store holds exactly the in-memory lists. */
  predicate InSync(s: Engine)
  {
    s.prefs.geofencesJson == Some(Array(EncodedFences(s.fences)))
    && s.prefs.historyJson == Some(Array(EncodedEvents(s.history)))
  }

  /** A pass that starts with the store in step with memory ends that way, for any ids. */
  lemma EvaluateKeepsSync(s0: Engine, fix: Fix, dist: Haversine, ids: nat -> string, now: int)
    requires InSync(s0)
    ensures InSync(Evaluate(s0, fix, dist, ids, now))
  {
    CheckedLog(s0, |s0.fences|, fix, dist, ids, now);
  }

  // ---------------------------------------------------------------------
  // Properties that need no assumption on ids.

  /** A pass in which no active fence commits changes nothing at all. */
  lemma {:induction false} QuietPass(s0: Engine, n: nat, fix: Fix, dist: Haversine, ids: nat -> string, now: int)
    requires n <= |s0.fences|
    requires forall k :: 0 <= k < n ==> !CommitsAt(s0.fences, k, fix, dist)
    ensures Checked(s0, n, fix, dist, ids, now) == s0
  {
    if n > 0 {
      QuietPass(s0, n - 1, fix, dist, ids, now);
      assert !CommitsAt(s0.fences, n - 1, fix, dist);
    }
  }

  /** A fix in the dead band of every active fence commits nothing. */
  predicate InDeadBand(fs: seq<Geofence>, fix: Fix, dist: Haversine)
  {
    forall k :: 0 <= k < |fs| && fs[k].isActive ==>
      fs[k].radiusInMeters <= CenterDistance(dist, fix, fs[k]) <= fs[k].radiusInMeters + DeadBand
  }

  /** Any sequence of fixes that stays in the dead band produces no event and no state change. */
  lemma {:induction false} DeadBandRunIsQuiet(s0: Engine, fixes: seq<Fix>, dist: Haversine, ids: nat -> nat -> string, now: nat -> int)
    requires forall j :: 0 <= j < |fixes| ==> InDeadBand(s0.fences, fixes[j], dist)
    ensures Run(s0, fixes, dist, ids, now) == s0
  {
    if fixes != [] {
      var j := |fixes| - 1;
      DeadBandRunIsQuiet(s0, fixes[..j], dist, ids, now);
      assert InDeadBand(s0.fences, fixes[j], dist);
      forall k | 0 <= k < |s0.fences| ensures !CommitsAt(s0.fences, k, fix := fixes[j], dist := dist) {
        CommitIsCrossing(CenterDistance(dist, fixes[j], s0.fences[k]), s0.fences[k]);
      }
      QuietPass(s0, |s0.fences|, fixes[j], dist, ids(j), now(j));
    }
  }

  /** The history only ever gains arrivals and departures. */
  lemma {:induction false} CheckedLogsTransitions(s0: Engine, n: nat, fix: Fix, dist: Haversine, ids: nat -> string, now: int)
    requires n <= |s0.fences| && AllTransitions(s0.history)
    ensures AllTransitions(Checked(s0, n, fix, dist, ids, now).history)
  {
    if n > 0 {
      CheckedLogsTransitions(s0, n - 1, fix, dist, ids, now);
      var prev := Checked(s0, n - 1, fix, dist, ids, now);
      var f := prev.fences[n - 1];
      var ns := CandidateState(CenterDistance(dist, fix, f), f);
      if f.isActive && ns != f.lastState && ns != UNKNOWN {
        PushEventKeepsTransitions(prev.history, GeofenceEvent(ids(n - 1), f.name, ns, now));
      }
    }
  }

  /** A fence that has left UNKNOWN never returns to it. */
  lemma {:induction false} CheckedNeverReentersUnknown(s0: Engine, n: nat, fix: Fix, dist: Haversine, ids: nat -> string, now: int)
    requires n <= |s0.fences|
    ensures forall k :: 0 <= k < |s0.fences| && s0.fences[k].lastState != UNKNOWN ==>
      Checked(s0, n, fix, dist, ids, now).fences[k].lastState != UNKNOWN
  {
    if n > 0 {
      CheckedNeverReentersUnknown(s0, n - 1, fix, dist, ids, now);
      var prev := Checked(s0, n - 1, fix, dist, ids, now);
      var f := prev.fences[n - 1];
      var ns := CandidateState(CenterDistance(dist, fix, f), f);
      if f.isActive && ns != f.lastState && ns != UNKNOWN {
        SetStateByIdFrame(prev.fences, f.id, ns);
      }
    }
  }

  /** With unique ids, an inactive fence is left exactly as it was by any sequence of fixes. */
  lemma {:induction false} InactiveFenceUntouched(s0: Engine, fixes: seq<Fix>, dist: Haversine, ids: nat -> nat -> string, now: nat -> int, k: nat)
    requires UniqueIds(s0.fences) && k < |s0.fences| && !s0.fences[k].isActive
    ensures var r := Run(s0, fixes, dist, ids, now);
      |r.fences| == |s0.fences| && UniqueIds(r.fences) && r.fences[k] == s0.fences[k]
  {
    if fixes != [] {
      var j := |fixes| - 1;
      InactiveFenceUntouched(s0, fixes[..j], dist, ids, now, k);
      var prev := Run(s0, fixes[..j], dist, ids, now);
      EvaluateFences(prev, fixes[j], dist, ids(j), now(j));
    }
  }

  /**
   * With unique ids, fixes that all lie in one fence's dead band leave that
   * fence exactly as it was, whatever happens to the others.
   */
  lemma {:induction false} FenceInBandUntouched(s0: Engine, fixes: seq<Fix>, dist: Haversine, ids: nat -> nat -> string, now: nat -> int, k: nat)
    requires UniqueIds(s0.fences) && k < |s0.fences|
    requires forall j :: 0 <= j < |fixes| ==>
      s0.fences[k].radiusInMeters <= CenterDistance(dist, fixes[j], s0.fences[k]) <= s0.fences[k].radiusInMeters + DeadBand
    ensures var r := Run(s0, fixes, dist, ids, now);
      UniqueIds(r.fences) && r.fences[k] == s0.fences[k]
  {
    if fixes != [] {
      var j := |fixes| - 1;
      FenceInBandUntouched(s0, fixes[..j], dist, ids, now, k);
      var prev := Run(s0, fixes[..j], dist, ids, now);
      EvaluateFences(prev, fixes[j], dist, ids(j), now(j));
      CandidateBands(CenterDistance(dist, fixes[j], s0.fences[k]), s0.fences[k]);
    }
  }

  lemma EvaluateOneFence(s: Engine, fix: Fix, dist: Haversine, ids: nat -> string, now: int)
    requires |s.fences| == 1
    ensures Evaluate(s, fix, dist, ids, now) == Step(s, 0, fix, dist, ids, now)
  {
    assert Checked(s, 0, fix, dist, ids, now) == s;
  }

  /** The distances of the walk-through: a fix at latitude x lies x metres from every centre. */
  function ScenarioDistance(lat1: real, lon1: real, lat2: real, lon2: real): real
  {
    lat1
  }

  /**
   * A walk-through: fence "Home" of radius 100 m starts UNKNOWN;
   * fixes at 50 m, 95 m and 120 m from its centre give INSIDE, no change,
   * then OUTSIDE, with two events in the history.
   */
  lemma HomeScenario(p: Prefs, ids: nat -> nat -> string, now: nat -> int)
    ensures
      var home := Geofence(id := "home", name := "Home", latitude := 40.0, longitude := -74.0, radiusInMeters := 100.0);
      var s0 := Engine([home], [], p, []);
      var s1 := Run(s0, [Fix(50.0, 0.0)], ScenarioDistance, ids, now);
      var s2 := Run(s0, [Fix(50.0, 0.0), Fix(95.0, 0.0)], ScenarioDistance, ids, now);
      var s3 := Run(s0, [Fix(50.0, 0.0), Fix(95.0, 0.0), Fix(120.0, 0.0)], ScenarioDistance, ids, now);
      && s1.fences[0].lastState == INSIDE && |s1.history| == 1 && s1.history[0].eventType == INSIDE
      && s2 == s1
      && s3.fences[0].lastState == OUTSIDE && |s3.history| == 2
      && s3.history[0].eventType == OUTSIDE && s3.history[1] == s1.history[0]
  {
    var home := Geofence(id := "home", name := "Home", latitude := 40.0, longitude := -74.0, radiusInMeters := 100.0);
    var dist := ScenarioDistance;
    var s0 := Engine([home], [], p, []);
    var f1, f2, f3 := Fix(50.0, 0.0), Fix(95.0, 0.0), Fix(120.0, 0.0);
    assert [f1][..0] == [];
    assert [f1, f2][..1] == [f1];
    assert [f1, f2, f3][..2] == [f1, f2];
    assert Run(s0, [], dist, ids, now) == s0;
    var s1 := Run(s0, [f1], dist, ids, now);
    EvaluateOneFence(s0, f1, dist, ids(0), now(0));
    assert s1 == Step(s0, 0, f1, dist, ids(0), now(0));
    assert s1.fences == [WithState(home, INSIDE)];
    var s2 := Run(s0, [f1, f2], dist, ids, now);
    EvaluateOneFence(s1, f2, dist, ids(1), now(1));
    assert s2 == Step(s1, 0, f2, dist, ids(1), now(1));
    var s3 := Run(s0, [f1, f2, f3], dist, ids, now);
    EvaluateOneFence(s2, f3, dist, ids(2), now(2));
    assert s3 == Step(s2, 0, f3, dist, ids(2), now(2));
  }
}
