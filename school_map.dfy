/** The school map of the dashboard (app/components/KakaoMap.tsx): one
    coloured marker per school of the selected team, rebuilt whenever the
    schools or the filter change, and one info window at a time. */
module SchoolMap {
  import opened Common

  /** The part of a school the map uses. */
  datatype MapSchool = MapSchool(name: string, address: string, teachersRoomNum: string,
                                 adminRoomNum: string, team: string, lat: Coord, lon: Coord)

  type Position = (Coord, Coord)

  function PositionOf(s: MapSchool): Position {
    (s.lat, s.lon)
  }

  /** The four marker images. */
  datatype Colour = Red | Blue | Green | Yellow

  /** The marker image chosen for a team. */
  function MarkerColour(team: string): Colour {
    if team == "1팀" then Red
    else if team == "2팀" then Blue
    else if team == "3팀" then Green
    else Yellow
  }

  /** Teams 1, 2 and 3 have their own colour; every other team, the empty
      one included, is yellow. */
  lemma ColourTable(team: string)
    ensures MarkerColour(team) == Red <==> team == "1팀"
    ensures MarkerColour(team) == Blue <==> team == "2팀"
    ensures MarkerColour(team) == Green <==> team == "3팀"
    ensures MarkerColour(team) == Yellow <==> team != "1팀" && team != "2팀" && team != "3팀"
  {
  }

  /** The filter `'all'` shows every school, any other value the schools of
      that team. */
  predicate Shown(filter: string, s: MapSchool) {
    filter == "all" || s.team == filter
  }

  /** The schools that get a marker, in list order. */
  function ShownSchools(schools: seq<MapSchool>, filter: string): (r: seq<MapSchool>)
    ensures |r| <= |schools|
    ensures filter == "all" ==> r == schools
    decreases |schools|
  {
    if |schools| == 0 then []
    else
      var last := schools[|schools| - 1];
      ShownSchools(schools[..|schools| - 1], filter) + (if Shown(filter, last) then [last] else [])
  }

  /** A school gets a marker exactly when the filter shows it. */
  lemma {:induction false} ShownIff(schools: seq<MapSchool>, filter: string, s: MapSchool)
    ensures s in ShownSchools(schools, filter) <==> s in schools && Shown(filter, s)
    decreases |schools|
  {
    if |schools| > 0 {
      var init := schools[..|schools| - 1];
      ShownIff(init, filter, s);
      assert schools == init + [schools[|schools| - 1]];
    }
  }

  /** A marker object: `key` is its identity, which nothing else shares. */
  datatype Marker = Marker(key: nat, school: MapSchool, colour: Colour)

  /** The markers built for the given schools, one each and in order,
      with fresh keys from `first` on and each coloured by its school's
      team. */
  function MarkersFor(schools: seq<MapSchool>, first: nat): (r: seq<Marker>)
    ensures |r| == |schools|
  {
    seq(|schools|, i requires 0 <= i < |schools| => Marker(first + i, schools[i], MarkerColour(schools[i].team)))
  }

  function KeysOf(ms: seq<Marker>): set<nat> {
    set m | m in ms :: m.key
  }

  lemma KeysOfAppend(ms: seq<Marker>, m: Marker)
    ensures KeysOf(ms + [m]) == KeysOf(ms) + {m.key}
  {
    assert forall x :: x in ms + [m] <==> x in ms || x == m;
  }

  /** The keys handed out from `a` up to `b`. */
  function Range(a: nat, b: nat): set<nat>
    decreases b
  {
    if b <= a then {} else Range(a, b - 1) + {b - 1}
  }

  lemma {:induction false} RangeHas(a: nat, b: nat, k: nat)
    ensures k in Range(a, b) <==> a <= k < b
    decreases b
  {
    if b > a {
      RangeHas(a, b - 1, k);
    }
  }

  lemma RangeStep(a: nat, b: nat)
    requires a <= b
    ensures Range(a, b + 1) == Range(a, b) + {b}
  {
  }

  /** The `i`-th marker is the `i`-th school's, keyed `first + i` and in
      its team's colour. */
  lemma MarkersForAt(schools: seq<MapSchool>, first: nat, i: nat)
    requires i < |schools|
    ensures MarkersFor(schools, first)[i] == Marker(first + i, schools[i], MarkerColour(schools[i].team))
  {
  }

  /** Markers built from `first` have exactly the keys from `first` on. */
  lemma MarkersForKeys(schools: seq<MapSchool>, first: nat)
    ensures KeysOf(MarkersFor(schools, first)) == Range(first, first + |schools|)
  {
    var ms := MarkersFor(schools, first);
    forall k: nat ensures k in KeysOf(ms) <==> k in Range(first, first + |schools|) {
      RangeHas(first, first + |schools|, k);
      if first <= k < first + |schools| {
        MarkersForAt(schools, first, k - first);
        assert ms[k - first] in ms;
      }
    }
  }

  /** Every such marker is keyed below `first + |schools|`. */
  lemma MarkersForBelow(schools: seq<MapSchool>, first: nat)
    ensures forall m :: m in MarkersFor(schools, first) ==> m.key in Range(first, first + |schools|) && m.key < first + |schools|
  {
    MarkersForKeys(schools, first);
    forall m | m in MarkersFor(schools, first)
      ensures m.key < first + |schools|
    {
      assert m.key in KeysOf(MarkersFor(schools, first));
      RangeHas(first, first + |schools|, m.key);
    }
  }

  function Positions(schools: seq<MapSchool>): (r: seq<Position>)
    ensures |r| == |schools|
  {
    seq(|schools|, i requires 0 <= i < |schools| => PositionOf(schools[i]))
  }

  /** The shown schools of one more school. */
  lemma ShownStep(schools: seq<MapSchool>, filter: string, j: nat)
    requires j < |schools|
    ensures ShownSchools(schools[..j + 1], filter)
         == ShownSchools(schools[..j], filter) + (if Shown(filter, schools[j]) then [schools[j]] else [])
  {
    assert schools[..j + 1][..j] == schools[..j];
  }

  lemma MarkersForAppend(schools: seq<MapSchool>, s: MapSchool, first: nat)
    ensures MarkersFor(schools + [s], first)
         == MarkersFor(schools, first) + [Marker(first + |schools|, s, MarkerColour(s.team))]
  {
  }

  lemma PositionsAppend(schools: seq<MapSchool>, s: MapSchool)
    ensures Positions(schools + [s]) == Positions(schools) + [PositionOf(s)]
  {
  }

  /** An info window, opened on a marker and showing its school. */
  datatype InfoWindow = InfoWindow(key: nat, school: MapSchool)

  /** The `Markers` component's refs and what it has put on the map. */
  class MarkerLayer {
    /** `markersRef.current`. */
    var markers: seq<Marker>
    /** The keys of the markers attached to the map. */
    var onMap: set<nat>
    var nextKey: nat
    /** The positions the map view was last fitted to. */
    var bounds: seq<Position>
    /** `infoWindowRef.current`. */
    var infoWindow: Option<InfoWindow>
    /** The keys of the info windows open on the map. */
    var openWindows: set<nat>
    var nextWindow: nat

    /** Every listed marker is on the map and has been handed out, and the
        only open info window is the one in the ref. */
    ghost predicate Valid()
      reads this
    {
      && (forall m :: m in markers ==> m.key in onMap)
      && (forall m :: m in markers ==> m.key < nextKey)
      && openWindows == (if infoWindow.Some? then {infoWindow.value.key} else {})
      && (infoWindow.Some? ==> infoWindow.value.key < nextWindow)
    }

    constructor ()
      ensures Valid()
      ensures markers == [] && onMap == {} && bounds == [] && infoWindow.None? && openWindows == {}
    {
      markers, onMap, nextKey, bounds := [], {}, 0, [];
      infoWindow, openWindows, nextWindow := None, {}, 0;
    }

    /** `markersRef.current.forEach(m => m.setMap(null))` followed by
        emptying the ref. */
    method DetachAll()
      modifies this`markers, this`onMap
      ensures onMap == old(onMap) - KeysOf(old(markers)) && markers == []
    {
      var i := 0;
      while i < |markers|
        invariant 0 <= i <= |markers|
        invariant markers == old(markers)
        invariant onMap == old(onMap) - KeysOf(markers[..i])
      {
        KeysOfAppend(markers[..i], markers[i]);
        assert markers[..i + 1] == markers[..i] + [markers[i]];
        onMap := onMap - {markers[i].key};
        i := i + 1;
      }
      assert markers[..i] == markers;
      markers := [];
    }

    /** The `forEach` over the schools: one fresh marker per shown school
        is put on the map and appended to the (emptied) ref, and the view
        is fitted to the shown schools. */
    method PlaceShown(schools: seq<MapSchool>, filter: string)
      requires markers == []
      modifies this`markers, this`onMap, this`nextKey, this`bounds
      ensures markers == MarkersFor(ShownSchools(schools, filter), old(nextKey))
      ensures nextKey == old(nextKey) + |markers|
      ensures onMap == old(onMap) + Range(old(nextKey), nextKey)
      ensures bounds == Positions(ShownSchools(schools, filter))
    {
      var first := nextKey;
      var placed: seq<Marker> := [];
      var base := onMap;
      var attached := base;
      var fitted: seq<Position> := [];
      ghost var shown: seq<MapSchool> := [];
      var j := 0;
      while j < |schools|
        invariant 0 <= j <= |schools|
        invariant shown == ShownSchools(schools[..j], filter)
        invariant placed == MarkersFor(shown, first)
        invariant fitted == Positions(shown)
        invariant attached == base + Range(first, first + |shown|)
      {
        var school := schools[j];
        ShownStep(schools, filter, j);
        if Shown(filter, school) {
          MarkersForAppend(shown, school, first);
          PositionsAppend(shown, school);
          RangeStep(first, first + |shown|);
          attached := attached + {first + |placed|};
          placed := placed + [Marker(first + |placed|, school, MarkerColour(school.team))];
          fitted := fitted + [PositionOf(school)];
          shown := shown + [school];
        }
        j := j + 1;
      }
      assert schools[..j] == schools;
      markers, onMap, nextKey, bounds := placed, attached, first + |placed|, fitted;
    }

    /** The effect. Without a map nothing happens. Otherwise every marker
        in the ref is taken off the map and the ref emptied; then one fresh
        marker per shown school, in order and in its team's colour, is put
        on the map and in the ref, and the view is fitted to exactly the
        shown schools. */
    method Rebuild(mapReady: bool, schools: seq<MapSchool>, filter: string)
      requires Valid()
      modifies this`markers, this`onMap, this`nextKey, this`bounds
      ensures Valid()
      ensures !mapReady ==> markers == old(markers) && onMap == old(onMap) && nextKey == old(nextKey) && bounds == old(bounds)
      ensures mapReady ==>
        var shown := ShownSchools(schools, filter);
        && markers == MarkersFor(shown, old(nextKey))
        && nextKey == old(nextKey) + |shown|
        && onMap == (old(onMap) - KeysOf(old(markers))) + KeysOf(markers)
        && bounds == Positions(shown)
    {
      if !mapReady {
        return;
      }
      DetachAll();
      PlaceShown(schools, filter);
      MarkersForKeys(ShownSchools(schools, filter), old(nextKey));
      MarkersForBelow(ShownSchools(schools, filter), old(nextKey));
    }

    /** A click on a marker closes the info window in the ref, if any, and
        opens a new one for that marker's school, so exactly one is open;
        the school is handed to `onSchoolSelect`. */
    method Click(i: nat) returns (selected: MapSchool)
      requires Valid() && i < |markers|
      modifies this`infoWindow, this`openWindows, this`nextWindow
      ensures Valid()
      ensures selected == old(markers)[i].school
      ensures infoWindow == Some(InfoWindow(old(nextWindow), selected)) && openWindows == {old(nextWindow)}
    {
      if infoWindow.Some? {
        openWindows := openWindows - {infoWindow.value.key};
      }
      selected := markers[i].school;
      var w := InfoWindow(nextWindow, selected);
      nextWindow := nextWindow + 1;
      openWindows := openWindows + {w.key};
      infoWindow := Some(w);
    }
  }
}
