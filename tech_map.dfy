/** The school map of the technician app (tech/app/components/KakaoMap.tsx).
    Its effect either finds the map SDK already loaded and draws the markers
    at once (returning no cleanup), or injects the SDK script and draws them
    when the script has loaded (returning a cleanup that removes the script
    and every marker in the ref). The map container is rendered only once
    the loaded flag is set. */
module TechMap {
  import opened Common
  import opened SchoolMap

  /** Where the map container `div` is rendered. `SpinnerOnly` is the
      component as written: until the loaded flag is set only the spinner is
      rendered, so `mapRef.current` is null. `AlwaysMounted` renders the
      container from the first render on. */
  datatype Layout = SpinnerOnly | AlwaysMounted

  /** Everything the component holds between events: the `isLoaded` state,
      `markersRef.current`, the keys of the markers on the map, whether the
      last effect registered a cleanup, the schools a loading script will
      draw, `infoWindowRef.current` and the info windows open on the map. */
  datatype View = View(isLoaded: bool, markers: seq<Marker>, onMap: set<nat>, nextKey: nat,
                       cleanup: bool, pending: Option<seq<MapSchool>>,
                       infoWindow: Option<InfoWindow>, openWindows: set<nat>, nextWindow: nat)

  const Initial := View(false, [], {}, 0, false, None, None, {}, 0)

  /** `mapRef.current` is set. */
  predicate Mounted(layout: Layout, v: View) {
    layout == AlwaysMounted || v.isLoaded
  }

  /** The cleanup of the previous run, when it registered one: the script is
      removed (its load will not draw anything) and every marker in the ref
      is taken off the map and the ref emptied. */
  function Cleaned(v: View): View {
    if v.cleanup then
      v.(markers := [], onMap := v.onMap - KeysOf(v.markers), cleanup := false, pending := None)
    else v
  }

  /** The `forEach` over the shown schools, pushing one fresh marker each
      onto the ref and the map, followed by `setIsLoaded(true)`. Both
      branches of the effect draw this way, with the same colour table. */
  function Built(v: View, shown: seq<MapSchool>): View {
    v.(markers := v.markers + MarkersFor(shown, v.nextKey),
       onMap := v.onMap + Range(v.nextKey, v.nextKey + |shown|),
       nextKey := v.nextKey + |shown|,
       isLoaded := true)
  }

  /** One run of the effect, after the previous run's cleanup. */
  function AfterEffect(v: View, sdkReady: bool, schools: seq<MapSchool>, filter: string, layout: Layout): View {
    var w := Cleaned(v);
    var shown := ShownSchools(schools, filter);
    if sdkReady then
      if Mounted(layout, w) then Built(w, shown) else w
    else
      w.(cleanup := true, pending := Some(shown))
  }

  /** The injected script has loaded: its callback draws the schools it was
      created for when the container is there, and does nothing otherwise. */
  function AfterScriptLoad(v: View, layout: Layout): View {
    match v.pending
    case None => v
    case Some(shown) =>
      if Mounted(layout, v) then Built(v, shown).(pending := None) else v.(pending := None)
  }

  /** A click on the `i`-th marker of the ref opens a new info window for
      its school; the one in the ref is not closed. */
  function AfterClick(v: View, i: nat): View {
    if i < |v.markers| then
      v.(infoWindow := Some(InfoWindow(v.nextWindow, v.markers[i].school)),
         openWindows := v.openWindows + {v.nextWindow},
         nextWindow := v.nextWindow + 1)
    else v
  }

  /** What can happen to the component: a render that runs the effect (the
      effect depends on a freshly filtered array, so it runs after every
      render), the load of an injected script, and a click on a marker. */
  datatype Event =
    | Effect(sdkReady: bool, schools: seq<MapSchool>, filter: string)
    | ScriptLoad
    | Click(index: nat)

  function Step(v: View, e: Event, layout: Layout): View {
    match e
    case Effect(sdkReady, schools, filter) => AfterEffect(v, sdkReady, schools, filter, layout)
    case ScriptLoad => AfterScriptLoad(v, layout)
    case Click(i) => AfterClick(v, i)
  }

  /** The view after the events, in order. */
  function Replay(v: View, es: seq<Event>, layout: Layout): View
    decreases |es|
  {
    if |es| == 0 then v else Step(Replay(v, es[..|es| - 1], layout), es[|es| - 1], layout)
  }

  /** As written, no sequence of events ever sets the loaded flag or draws
      a marker: the container is missing in both branches until the flag is
      set, and only drawing sets it. */
  lemma {:induction false} NeverLoads(es: seq<Event>)
    ensures !Replay(Initial, es, SpinnerOnly).isLoaded
    ensures Replay(Initial, es, SpinnerOnly).markers == []
    decreases |es|
  {
    if |es| > 0 {
      NeverLoads(es[..|es| - 1]);
    }
  }

  /** With the container mounted from the start, a run that finds the SDK
      loaded sets the flag and draws exactly one marker per shown school, in
      order, on top of what the ref still holds. */
  lemma LoadsWhenSdkReady(v: View, schools: seq<MapSchool>, filter: string)
    ensures var r := Step(v, Effect(true, schools, filter), AlwaysMounted);
      && r.isLoaded
      && r.markers == Cleaned(v).markers + MarkersFor(ShownSchools(schools, filter), v.nextKey)
      && !r.cleanup
  {
  }

  /** With the container mounted from the start, a run that injects the
      script and the script's load together set the flag and draw exactly
      the schools shown at that run, into an emptied or untouched ref. */
  lemma LoadsAfterScript(v: View, schools: seq<MapSchool>, filter: string)
    ensures var r := AfterScriptLoad(AfterEffect(v, false, schools, filter, AlwaysMounted), AlwaysMounted);
      && r.isLoaded
      && r.markers == Cleaned(v).markers + MarkersFor(ShownSchools(schools, filter), v.nextKey)
      && r.cleanup
  {
  }

  lemma ReplayPair(v: View, e1: Event, e2: Event, layout: Layout)
    ensures Replay(v, [e1, e2], layout) == Step(Step(v, e1, layout), e2, layout)
  {
    assert [e1, e2][..1] == [e1];
    assert [e1][..0] == [];
    assert Replay(v, [e1], layout) == Step(v, e1, layout);
  }

  /** From the first render, with the container mounted, either way of
      loading ends with the flag set and one marker per shown school. */
  lemma InitialLoads(schools: seq<MapSchool>, filter: string, sdkReady: bool)
    ensures var es := if sdkReady then [Effect(true, schools, filter)] else [Effect(false, schools, filter), ScriptLoad];
      var r := Replay(Initial, es, AlwaysMounted);
      r.isLoaded && r.markers == MarkersFor(ShownSchools(schools, filter), 0)
  {
    if sdkReady {
      LoadsWhenSdkReady(Initial, schools, filter);
      assert [Effect(true, schools, filter)][..0] == [];
    } else {
      LoadsAfterScript(Initial, schools, filter);
      ReplayPair(Initial, Effect(false, schools, filter), ScriptLoad, AlwaysMounted);
    }
  }

  /** Only the script branch registers a cleanup. */
  lemma CleanupOnlyForScript(v: View, sdkReady: bool, schools: seq<MapSchool>, filter: string, layout: Layout)
    ensures AfterEffect(v, sdkReady, schools, filter, layout).cleanup <==> !sdkReady
  {
  }

  /** A run in the already-loaded branch that follows one which also drew
      in that branch keeps every earlier marker in the ref and on the map:
      markers accumulate across re-runs. */
  lemma MarkersAccumulate(v: View, first: seq<MapSchool>, f1: string, second: seq<MapSchool>, f2: string, layout: Layout)
    requires Mounted(layout, Cleaned(v))
    ensures var a := AfterEffect(v, true, first, f1, layout);
      var b := AfterEffect(a, true, second, f2, layout);
      && b.markers == a.markers + MarkersFor(ShownSchools(second, f2), a.nextKey)
      && b.onMap >= a.onMap
  {
  }

  /** The cleanup, when registered, empties the ref and takes every marker
      in it off the map. */
  lemma CleanupDetaches(v: View)
    requires v.cleanup
    ensures Cleaned(v).markers == []
    ensures Cleaned(v).onMap * KeysOf(v.markers) == {}
  {
  }

  /** The loaded flag is set only by drawing: a step that sets it has
      pushed one marker per school it drew onto the ref. */
  lemma LoadedOnlyByDrawing(v: View, e: Event, layout: Layout)
    requires !v.isLoaded && Step(v, e, layout).isLoaded
    ensures e.Effect? ==> e.sdkReady && Step(v, e, layout).markers
                            == Cleaned(v).markers + MarkersFor(ShownSchools(e.schools, e.filter), v.nextKey)
    ensures e.ScriptLoad? ==> v.pending.Some? && Step(v, e, layout).markers == v.markers + MarkersFor(v.pending.value, v.nextKey)
    ensures !e.Click?
  {
  }

  /** Clicks never close a window: two clicks leave two more open. */
  lemma ClicksKeepWindowsOpen(v: View, i: nat, j: nat)
    requires i < |v.markers| && j < |v.markers|
    ensures var r := AfterClick(AfterClick(v, i), j);
      r.openWindows == v.openWindows + {v.nextWindow, v.nextWindow + 1}
      && r.infoWindow == Some(InfoWindow(v.nextWindow + 1, v.markers[j].school))
  {
  }

  /** The component's state, with the same effect, load and click as step
      by step updates of its refs. */
  class MapComponent {
    var isLoaded: bool
    var markers: seq<Marker>
    var onMap: set<nat>
    var nextKey: nat
    var cleanup: bool
    var pending: Option<seq<MapSchool>>
    var infoWindow: Option<InfoWindow>
    var openWindows: set<nat>
    var nextWindow: nat

    function Snapshot(): View
      reads this
    {
      View(isLoaded, markers, onMap, nextKey, cleanup, pending, infoWindow, openWindows, nextWindow)
    }

    constructor ()
      ensures Snapshot() == Initial
    {
      isLoaded, markers, onMap, nextKey := false, [], {}, 0;
      cleanup, pending := false, None;
      infoWindow, openWindows, nextWindow := None, {}, 0;
    }

    /** `markersRef.current.forEach(marker => marker.setMap(null))`, then
        the ref is emptied. */
    method DetachAll()
      modifies this`markers, this`onMap
      ensures onMap == old(onMap) - KeysOf(old(markers)) && markers == []
    {
      var ms := markers;
      var base := onMap;
      var attached := base;
      var i := 0;
      while i < |ms|
        invariant 0 <= i <= |ms|
        invariant attached == base - KeysOf(ms[..i])
      {
        KeysOfAppend(ms[..i], ms[i]);
        assert ms[..i + 1] == ms[..i] + [ms[i]];
        attached := attached - {ms[i].key};
        i := i + 1;
      }
      assert ms[..i] == ms;
      markers, onMap := [], attached;
    }

    /** The `forEach` over the shown schools: each gets a fresh marker,
        put on the map and pushed onto the ref. */
    method PushMarkers(shown: seq<MapSchool>)
      modifies this`markers, this`onMap, this`nextKey
      ensures markers == old(markers) + MarkersFor(shown, old(nextKey))
      ensures onMap == old(onMap) + Range(old(nextKey), old(nextKey) + |shown|)
      ensures nextKey == old(nextKey) + |shown|
    {
      var first := nextKey;
      var start := markers;
      var base := onMap;
      var pushed := start;
      var attached := base;
      var j := 0;
      while j < |shown|
        invariant 0 <= j <= |shown|
        invariant pushed == start + MarkersFor(shown[..j], first)
        invariant attached == base + Range(first, first + j)
      {
        assert shown[..j + 1] == shown[..j] + [shown[j]];
        MarkersForAppend(shown[..j], shown[j], first);
        RangeStep(first, first + j);
        pushed := pushed + [Marker(first + j, shown[j], MarkerColour(shown[j].team))];
        attached := attached + {first + j};
        j := j + 1;
      }
      assert shown[..j] == shown;
      markers, onMap, nextKey := pushed, attached, first + j;
    }

    /** A run of the effect, preceded by the previous run's cleanup. */
    method RunEffect(sdkReady: bool, schools: seq<MapSchool>, filter: string, layout: Layout)
      modifies this`isLoaded, this`markers, this`onMap, this`nextKey, this`cleanup, this`pending
      ensures Snapshot() == AfterEffect(old(Snapshot()), sdkReady, schools, filter, layout)
    {
      if cleanup {
        DetachAll();
        cleanup, pending := false, None;
      }
      var shown := ShownSchools(schools, filter);
      if sdkReady {
        if layout == AlwaysMounted || isLoaded {
          PushMarkers(shown);
          isLoaded := true;
        }
      } else {
        cleanup, pending := true, Some(shown);
      }
    }

    /** The load of the injected script. */
    method LoadScript(layout: Layout)
      modifies this`isLoaded, this`markers, this`onMap, this`nextKey, this`pending
      ensures Snapshot() == AfterScriptLoad(old(Snapshot()), layout)
    {
      if pending.Some? {
        if layout == AlwaysMounted || isLoaded {
          PushMarkers(pending.value);
          isLoaded := true;
        }
        pending := None;
      }
    }

    /** A click on the `i`-th marker: a new info window is opened and put in
        the ref, and the school is handed to `onSchoolSelect`. */
    method ClickMarker(i: nat) returns (selected: Option<MapSchool>)
      modifies this`infoWindow, this`openWindows, this`nextWindow
      ensures Snapshot() == AfterClick(old(Snapshot()), i)
      ensures selected == if i < |markers| then Some(markers[i].school) else None
    {
      if i < |markers| {
        var school := markers[i].school;
        infoWindow := Some(InfoWindow(nextWindow, school));
        openWindows := openWindows + {nextWindow};
        nextWindow := nextWindow + 1;
        selected := Some(school);
      } else {
        selected := None;
      }
    }
  }
}
