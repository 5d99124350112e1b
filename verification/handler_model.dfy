/**
 * The state of the map handler (TMapHandler) as a value, and each of its
 * operations as a function from the state before to the state after.
 *
 * The handler keeps four lookup tables keyed by business identifier: car
 * markers and car info windows by vehicle code, station info windows and
 * station circles by station id. SDK objects are kept as plain records:
 * a car geometry, an info window (its position, type, text and element
 * style), a circle (its position), a polyline. The polyline layer's content
 * is part of the state because renderPath decides between add and update
 * by it. `log` records the calls on the car and polyline layers (setStyles,
 * add, updateGeometries, remove), each overlay's updateDOM and destroy, and
 * the click callback. Creating an overlay, setVisible and registering event
 * handlers are not logged: their effect is the tables' content.
 */
module HandlerModel {
  import opened Common
  import DomOverlay

  // ---------------------------------------------------------------------------
  // Input records

  /** A vehicle as the back end reports it. `azimuth` is the number `+item.azimuth`. */
  datatype CarItem = CarItem(longitude: string, latitude: string, vehicleCode: string,
                             vehicleName: string, azimuth: real, batteryInfo: string,
                             speed: string)

  datatype StationItem = StationItem(longitude: string, latitude: string,
                                     stationId: string, stationName: string)

  /** A point of a route. */
  datatype PathPoint = PathPoint(longitude: string, latitude: string)

  /** The outcome of a call that may throw. */
  datatype Outcome<T> = Threw | Returned(value: T)

  /**
   * getLngLat as written: with a coordinate missing it calls
   * console.warn(…, position), and no `position` is declared in that scope,
   * so the call throws a ReferenceError instead of returning undefined.
   */
  function GetLngLatAsWritten(longitude: string, latitude: string): (r: Outcome<Option<LatLng>>)
    ensures r.Threw? <==> longitude == "" || latitude == ""
    ensures r.Returned? ==> r.value.Some?
  {
    if longitude == "" || latitude == "" then Threw else Returned(Some(Gcj02Of(longitude, latitude)))
  }

  /**
   * getLngLat as intended: no position (undefined) when either coordinate is
   * empty, otherwise the GCJ-02 position of the WGS-84 coordinates. It agrees
   * with the code as written wherever that returns.
   */
  function GetLngLat(longitude: string, latitude: string): (r: Option<LatLng>)
    ensures r.None? <==> longitude == "" || latitude == ""
    ensures r.Some? ==> r.value.longitude == longitude && r.value.latitude == latitude
    ensures GetLngLatAsWritten(longitude, latitude).Returned? ==>
              r == GetLngLatAsWritten(longitude, latitude).value
  {
    if longitude == "" || latitude == "" then None else Some(Gcj02Of(longitude, latitude))
  }

  // ---------------------------------------------------------------------------
  // SDK records

  /** A marker's draw order within its layer; the active car is drawn on top with Infinity. */
  datatype Rank = Finite(n: nat) | Inf

  /** The click callback handed to renderCarMarkers, by identity. */
  datatype Callback = Callback(handle: nat)

  datatype CarGeometry = CarGeometry(id: string, styleId: string, position: Option<LatLng>,
                                     properties: CarItem, rank: Rank, cb: Option<Callback>)

  /** An info window overlay: position, type, text and its element's style. */
  datatype InfoMarker = InfoMarker(position: Option<LatLng>, kind: string, content: string,
                                   domStyle: DomOverlay.Style)

  datatype CircleMarker = CircleMarker(position: Option<LatLng>)

  datatype Polyline = Polyline(id: string, styleId: string, paths: seq<Option<LatLng>>)

  datatype Image = CarImage | ActiveCarImage

  datatype MarkerStyle = MarkerStyle(width: nat, height: nat, src: Image,
                                     anchorX: nat, anchorY: nat, rotate: real)

  datatype OverlayGroup = CarInfoGroup | StationGroup | CircleGroup

  /** A call the handler makes on the SDK. */
  datatype SdkCall =
    | SetMarkerStyles(styles: map<string, MarkerStyle>)
    | AddMarkers(geometries: seq<CarGeometry>)
    | UpdateMarkers(geometries: seq<CarGeometry>)
    | RemoveMarkers(ids: set<string>)
    | RedrawOverlay(key: string)
    | AddPolylines(lines: seq<Polyline>)
    | UpdatePolylines(lines: seq<Polyline>)
    | RemovePolyline(id: string)
    | DestroyOverlay(group: OverlayGroup, key: string)
    | InvokeClickCallback(cb: Callback, properties: CarItem)

  datatype HandlerState = HandlerState(
    carMarkerMap: map<string, CarGeometry>,
    carInfoMarkerMap: map<string, InfoMarker>,
    stationMarkerMap: map<string, InfoMarker>,
    circleMarkerMap: map<string, CircleMarker>,
    gid: nat,
    prevCarGeo: Option<string>,   // the id of the geometry prevCarGeo refers to
    siteId: string,
    paths: seq<Option<LatLng>>,
    polylineLayer: map<string, Polyline>,
    log: seq<SdkCall>)

  // ---------------------------------------------------------------------------
  // The handler's invariant

  function DefaultKey(code: string): string {
    "default-" + code
  }

  function ActiveKey(code: string): string {
    "active-" + code
  }

  /** The visibility an info window's element currently has ("" if none is set). */
  function InfoVisibility(m: InfoMarker): string {
    if "visibility" in m.domStyle then m.domStyle["visibility"] else ""
  }

  predicate SharedKeys(s: HandlerState) {
    s.carMarkerMap.Keys == s.carInfoMarkerMap.Keys
  }

  /**
   * What holds of the car stored under `k`: its id is the key; a finite rank
   * was handed out already (it is at most gid); only the car prevCarGeo names
   * can be drawn on top; its style is the active one exactly when it is on
   * top, and so is its info window's visibility.
   */
  predicate CarConsistent(s: HandlerState, k: string)
    requires k in s.carMarkerMap && k in s.carInfoMarkerMap
  {
    var g := s.carMarkerMap[k];
    && g.id == k
    && (g.rank.Finite? ==> g.rank.n <= s.gid)
    && (g.rank == Inf ==> s.prevCarGeo == Some(k))
    && g.styleId == (if g.rank == Inf then ActiveKey(k) else DefaultKey(k))
    && (InfoVisibility(s.carInfoMarkerMap[k]) == DomOverlay.Visible <==> g.rank == Inf)
  }

  /** No two cars share a draw rank. */
  predicate DistinctRanks(m: map<string, CarGeometry>) {
    forall a, b :: a in m && b in m && a != b ==> m[a].rank != m[b].rank
  }

  predicate Inv(s: HandlerState) {
    && SharedKeys(s)
    && s.stationMarkerMap.Keys == s.circleMarkerMap.Keys
    && (forall k {:trigger CarConsistent(s, k)} :: k in s.carMarkerMap ==> CarConsistent(s, k))
    && DistinctRanks(s.carMarkerMap)
  }

  /** The constructor (with the layers created by load). */
  function Init(): (s: HandlerState)
    ensures Inv(s)
    ensures s.carMarkerMap == map[] && s.carInfoMarkerMap == map[]
    ensures s.stationMarkerMap == map[] && s.circleMarkerMap == map[]
    ensures s.gid == 0 && s.prevCarGeo == None && s.siteId == "" && s.paths == []
  {
    HandlerState(map[], map[], map[], map[], 0, None, "", [], map[], [])
  }

  // ---------------------------------------------------------------------------
  // renderCarMarkers and setCarStyles

  /** The filter of renderCarMarkers: both coordinates non-empty and neither is '0.0'. */
  predicate HasCoordinates(item: CarItem) {
    item.longitude != "" && item.latitude != "" &&
    item.longitude != "0.0" && item.latitude != "0.0"
  }

  function FilterCars(data: seq<CarItem>): (r: seq<CarItem>)
    ensures |r| <= |data|
    ensures forall x :: x in r <==> x in data && HasCoordinates(x)
  {
    if data == [] then []
    else (if HasCoordinates(data[0]) then [data[0]] else []) + FilterCars(data[1..])
  }

  /** The vehicle codes of a list of cars. */
  function Codes(items: seq<CarItem>): (r: set<string>)
    ensures forall i :: 0 <= i < |items| ==> items[i].vehicleCode in r
    ensures forall c :: c in r ==> exists i :: 0 <= i < |items| && items[i].vehicleCode == c
  {
    if items == [] then {}
    else Codes(items[..|items| - 1]) + {items[|items| - 1].vehicleCode}
  }

  function CarStyle(src: Image, item: CarItem): MarkerStyle {
    MarkerStyle(45, 24, src, 22, 24, item.azimuth + 180.0)
  }

  /** The style table setCarStyles hands to the car layer; a later car overwrites an earlier one with the same code. */
  function StyleTable(items: seq<CarItem>): (r: map<string, MarkerStyle>)
    ensures forall k :: k in r ==>
              r[k].width == 45 && r[k].height == 24 && r[k].anchorX == 22 && r[k].anchorY == 24
  {
    if items == [] then map[]
    else
      var last := items[|items| - 1];
      StyleTable(items[..|items| - 1])[DefaultKey(last.vehicleCode) := CarStyle(CarImage, last)]
                                      [ActiveKey(last.vehicleCode) := CarStyle(ActiveCarImage, last)]
  }

  /** A new car's info window: a 'car' window showing the vehicle name, hidden. */
  function NewCarInfo(item: CarItem): (r: InfoMarker)
    ensures r.position == GetLngLat(item.longitude, item.latitude)
    ensures r.kind == "car" && r.content == item.vehicleName
    ensures InfoVisibility(r) == DomOverlay.Hidden
  {
    InfoMarker(GetLngLat(item.longitude, item.latitude), "car", item.vehicleName,
               DomOverlay.CreatedStyle("car", item.vehicleName, map[]))
  }

  /** One iteration of renderCarMarkers' forEach: update a known car, add a new one. */
  function CarStep(s: HandlerState, item: CarItem, cb: Option<Callback>): (r: HandlerState)
    requires SharedKeys(s)
    ensures SharedKeys(r)
    ensures item.vehicleCode in r.carMarkerMap
    ensures r.carMarkerMap[item.vehicleCode].position == GetLngLat(item.longitude, item.latitude)
    ensures r.carMarkerMap[item.vehicleCode].properties == item
    ensures s.gid <= r.gid <= s.gid + 1
  {
    var code := item.vehicleCode;
    var position := GetLngLat(item.longitude, item.latitude);
    if code in s.carMarkerMap then
      var g := s.carMarkerMap[code];
      var gid := if g.rank == Inf then s.gid else s.gid + 1;
      var updated := g.(position := position, properties := item,
                        rank := if g.rank == Inf then Inf else Finite(gid));
      s.(carMarkerMap := s.carMarkerMap[code := updated],
         carInfoMarkerMap := s.carInfoMarkerMap[code := s.carInfoMarkerMap[code].(position := position)],
         gid := gid,
         log := s.log + [UpdateMarkers([updated]), RedrawOverlay(code)])
    else
      var added := CarGeometry(code, DefaultKey(code), position, item, Finite(s.gid + 1), cb);
      s.(carMarkerMap := s.carMarkerMap[code := added],
         carInfoMarkerMap := s.carInfoMarkerMap[code := NewCarInfo(item)],
         gid := s.gid + 1,
         log := s.log + [AddMarkers([added])])
  }

  /** The forEach of renderCarMarkers over `items`, in order. */
  function RenderCars(s: HandlerState, items: seq<CarItem>, cb: Option<Callback>): (r: HandlerState)
    requires SharedKeys(s)
    ensures SharedKeys(r)
    ensures r.carMarkerMap.Keys == s.carMarkerMap.Keys + Codes(items)
    ensures s.gid <= r.gid
    decreases |items|
  {
    if items == [] then s
    else CarStep(RenderCars(s, items[..|items| - 1], cb), items[|items| - 1], cb)
  }

  /** renderCarMarkers: filter, set the styles, then add or update car by car. */
  function RenderCarMarkersSpec(s: HandlerState, data: seq<CarItem>, cb: Option<Callback>): (r: HandlerState)
    requires SharedKeys(s)
    ensures SharedKeys(r)
    ensures r.carMarkerMap.Keys == s.carMarkerMap.Keys + Codes(FilterCars(data))
    ensures s.gid <= r.gid
  {
    var items := FilterCars(data);
    RenderCars(s.(log := s.log + [SetMarkerStyles(StyleTable(items))]), items, cb)
  }

  // ---------------------------------------------------------------------------
  // renderStationMarkers

  /** A new station's info window: a 'station' window showing the name, hidden. */
  function NewStationMarker(item: StationItem): (r: InfoMarker)
    ensures r.position == GetLngLat(item.longitude, item.latitude)
    ensures r.kind == "station" && r.content == item.stationName
    ensures InfoVisibility(r) == DomOverlay.Hidden
  {
    InfoMarker(GetLngLat(item.longitude, item.latitude), "station", item.stationName,
               DomOverlay.CreatedStyle("station", item.stationName, map[]))
  }

  /** One iteration: a station id already present is left alone. */
  function StationStep(s: HandlerState, item: StationItem): (r: HandlerState)
    ensures r.stationMarkerMap.Keys == s.stationMarkerMap.Keys + {item.stationId}
    ensures forall k :: k in s.stationMarkerMap ==> r.stationMarkerMap[k] == s.stationMarkerMap[k]
  {
    if item.stationId in s.stationMarkerMap then s
    else
      s.(stationMarkerMap := s.stationMarkerMap[item.stationId := NewStationMarker(item)],
         circleMarkerMap :=
           s.circleMarkerMap[item.stationId := CircleMarker(GetLngLat(item.longitude, item.latitude))])
  }

  function RenderStations(s: HandlerState, items: seq<StationItem>): (r: HandlerState)
    ensures forall k :: k in s.stationMarkerMap ==>
              k in r.stationMarkerMap && r.stationMarkerMap[k] == s.stationMarkerMap[k]
    decreases |items|
  {
    if items == [] then s
    else StationStep(RenderStations(s, items[..|items| - 1]), items[|items| - 1])
  }

  function StationIds(items: seq<StationItem>): (r: set<string>)
    ensures forall i :: 0 <= i < |items| ==> items[i].stationId in r
    ensures forall c :: c in r ==> exists i :: 0 <= i < |items| && items[i].stationId == c
  {
    if items == [] then {}
    else StationIds(items[..|items| - 1]) + {items[|items| - 1].stationId}
  }

  // ---------------------------------------------------------------------------
  // activeCurrCar and the marker layer's click handler

  /** The previous car goes back to its default style with a fresh rank; its info window hides. */
  function Demote(s: HandlerState, code: string): (r: HandlerState)
    requires code in s.carMarkerMap && code in s.carInfoMarkerMap
    ensures r.carMarkerMap.Keys == s.carMarkerMap.Keys
    ensures r.carInfoMarkerMap.Keys == s.carInfoMarkerMap.Keys
    ensures r.carMarkerMap[code].rank.Finite? && r.carMarkerMap[code].rank.n > s.gid
    ensures InfoVisibility(r.carInfoMarkerMap[code]) == DomOverlay.Hidden
    ensures forall k :: k in s.carMarkerMap && k != code ==> r.carMarkerMap[k] == s.carMarkerMap[k]
    ensures r.prevCarGeo == s.prevCarGeo
  {
    var info := s.carInfoMarkerMap[code];
    var gid := s.gid + 1;
    s.(carInfoMarkerMap := s.carInfoMarkerMap[code := info.(domStyle :=
         DomOverlay.SetVisibleStyle(info.domStyle, DomOverlay.Given(false)))],
       carMarkerMap := s.carMarkerMap[code := s.carMarkerMap[code].(styleId := DefaultKey(code),
                                                                   rank := Finite(gid))],
       gid := gid)
  }

  /** The current car takes the active style and rank Infinity; its info window shows. */
  function Promote(s: HandlerState, code: string): (r: HandlerState)
    requires code in s.carMarkerMap && code in s.carInfoMarkerMap
    ensures r.carMarkerMap.Keys == s.carMarkerMap.Keys
    ensures r.carInfoMarkerMap.Keys == s.carInfoMarkerMap.Keys
    ensures r.carMarkerMap[code].rank == Inf && r.prevCarGeo == Some(code)
    ensures InfoVisibility(r.carInfoMarkerMap[code]) == DomOverlay.Visible
    ensures forall k :: k in s.carMarkerMap && k != code ==> r.carMarkerMap[k] == s.carMarkerMap[k]
    ensures r.gid == s.gid
  {
    var g := s.carMarkerMap[code].(styleId := ActiveKey(code), rank := Inf);
    var info := s.carInfoMarkerMap[code];
    s.(carMarkerMap := s.carMarkerMap[code := g],
       carInfoMarkerMap := s.carInfoMarkerMap[code := info.(domStyle :=
         DomOverlay.SetVisibleStyle(info.domStyle, DomOverlay.Given(true)))],
       log := s.log + [UpdateMarkers([g])],
       prevCarGeo := Some(code))
  }

  /**
   * activeCurrCar. None: prevCarGeo names a car no longer in the tables (after
   * destroy), so its info window is undefined and setVisible throws before
   * anything is changed.
   */
  function ActiveCurrCarSpec(s: HandlerState, code: string): (r: Option<HandlerState>)
    requires SharedKeys(s)
    ensures r.None? <==> s.prevCarGeo.Some? && s.prevCarGeo.value !in s.carMarkerMap
    ensures r.Some? ==> r.value.carMarkerMap.Keys == s.carMarkerMap.Keys
    ensures r.Some? && code in s.carMarkerMap ==>
              r.value.prevCarGeo == Some(code) && r.value.carMarkerMap[code].rank == Inf
  {
    if s.prevCarGeo.Some? && s.prevCarGeo.value !in s.carInfoMarkerMap then None
    else
      var demoted := if s.prevCarGeo.Some? then Demote(s, s.prevCarGeo.value) else s;
      Some(if code in demoted.carMarkerMap then Promote(demoted, code) else demoted)
  }

  /**
   * The click guard as written: reading `.id` of prevCarGeo. None: prevCarGeo
   * is null (no car activated yet) and the read throws a TypeError.
   */
  function ClickGuardAsWritten(prev: Option<string>, id: string): (r: Option<bool>)
    ensures r.None? <==> prev.None?
    ensures r.Some? ==> (r.value <==> id != prev.value)
  {
    if prev.None? then None else Some(id != prev.value)
  }

  /** The click guard as intended: act unless the clicked car is the active one. */
  function ClickGuard(prev: Option<string>, id: string): (r: bool)
    ensures r <==> prev != Some(id)
    ensures ClickGuardAsWritten(prev, id).Some? ==> r == ClickGuardAsWritten(prev, id).value
  {
    prev.None? || id != prev.value
  }

  /** The car layer's click handler, with the intended guard; then the geometry's callback. */
  function ClickSpec(s: HandlerState, geometry: CarGeometry): (r: Option<HandlerState>)
    requires SharedKeys(s)
    ensures s.prevCarGeo == Some(geometry.id) ==> r == Some(s)
    ensures r.None? <==> s.prevCarGeo.Some? && s.prevCarGeo.value != geometry.id &&
                         s.prevCarGeo.value !in s.carMarkerMap
    ensures r.Some? ==> r.value.carMarkerMap.Keys == s.carMarkerMap.Keys
  {
    if !ClickGuard(s.prevCarGeo, geometry.id) then Some(s)
    else
      match ActiveCurrCarSpec(s, geometry.id)
      case None => None
      case Some(t) =>
        Some(if geometry.cb.Some?
             then t.(log := t.log + [InvokeClickCallback(geometry.cb.value, geometry.properties)])
             else t)
  }

  // ---------------------------------------------------------------------------
  // toggleStations

  /** One info window after setVisible(visible): only its visibility changes. */
  function Toggled(m: InfoMarker, visible: DomOverlay.VisibleArg): (r: InfoMarker)
    ensures InfoVisibility(r) == DomOverlay.VisibilityFor(visible)
    ensures r.position == m.position && r.kind == m.kind && r.content == m.content
  {
    m.(domStyle := DomOverlay.SetVisibleStyle(m.domStyle, visible))
  }

  /** Every info window of a table toggled. */
  function ToggledAll(m: map<string, InfoMarker>, visible: DomOverlay.VisibleArg): (r: map<string, InfoMarker>)
    ensures r.Keys == m.Keys
    ensures forall k :: k in r ==>
              && InfoVisibility(r[k]) == DomOverlay.VisibilityFor(visible)
              && r[k].position == m[k].position && r[k].kind == m[k].kind && r[k].content == m[k].content
  {
    map k | k in m :: Toggled(m[k], visible)
  }

  function ToggleStationsSpec(s: HandlerState, visible: DomOverlay.VisibleArg): (r: HandlerState)
    ensures r.stationMarkerMap.Keys == s.stationMarkerMap.Keys
    ensures r.(stationMarkerMap := s.stationMarkerMap) == s
  {
    s.(stationMarkerMap := ToggledAll(s.stationMarkerMap, visible))
  }

  // ---------------------------------------------------------------------------
  // renderPath

  function PathPositions(data: seq<PathPoint>): (r: seq<Option<LatLng>>)
    ensures |r| == |data|
    ensures forall i :: 0 <= i < |data| ==> r[i] == GetLngLat(data[i].longitude, data[i].latitude)
  {
    seq(|data|, i requires 0 <= i < |data| => GetLngLat(data[i].longitude, data[i].latitude))
  }

  /**
   * renderPath: nothing for an empty route; otherwise record the site and the
   * positions, and add the route in blue to an empty layer or update it (by
   * the site id) in deep blue.
   */
  function RenderPathSpec(s: HandlerState, data: seq<PathPoint>, siteId: string): (r: HandlerState)
    ensures |data| == 0 ==> r == s
    ensures |data| > 0 ==> && r.siteId == siteId && |r.paths| == |data|
                           && r.polylineLayer.Keys == s.polylineLayer.Keys + {siteId}
                           && r.polylineLayer[siteId].paths == r.paths
    ensures r.(siteId := s.siteId, paths := s.paths, polylineLayer := s.polylineLayer, log := s.log) == s
  {
    if |data| == 0 then s
    else
      var paths := PathPositions(data);
      if |s.polylineLayer| > 0 then
        var line := Polyline(siteId, "deeply-blue", paths);
        s.(siteId := siteId, paths := paths, polylineLayer := s.polylineLayer[siteId := line],
           log := s.log + [UpdatePolylines([line])])
      else
        var line := Polyline(siteId, "blue", paths);
        s.(siteId := siteId, paths := paths, polylineLayer := s.polylineLayer[siteId := line],
           log := s.log + [AddPolylines([line])])
  }

  // ---------------------------------------------------------------------------
  // destroy

  /** `ks` lists every key of `keys` exactly once (the order of a for..in loop). */
  ghost predicate Enumerates(ks: seq<string>, keys: set<string>) {
    && (forall i, j :: 0 <= i < j < |ks| ==> ks[i] != ks[j])
    && (forall k :: k in ks <==> k in keys)
  }

  function DestroyCalls(group: OverlayGroup, ks: seq<string>): (r: seq<SdkCall>)
    ensures |r| == |ks|
    ensures forall i :: 0 <= i < |ks| ==> r[i] == DestroyOverlay(group, ks[i])
  {
    if ks == [] then []
    else DestroyCalls(group, ks[..|ks| - 1]) + [DestroyOverlay(group, ks[|ks| - 1])]
  }

  /**
   * destroy, for given orders of the three for..in loops: destroy every
   * overlay, remove the cars' ids from the car layer and the current site's
   * route from the polyline layer, then empty the four tables.
   */
  function DestroySpec(s: HandlerState, infoOrder: seq<string>, stationOrder: seq<string>,
                       circleOrder: seq<string>): (r: HandlerState)
    ensures r.carMarkerMap == map[] && r.carInfoMarkerMap == map[]
    ensures r.stationMarkerMap == map[] && r.circleMarkerMap == map[]
    ensures r.polylineLayer.Keys == s.polylineLayer.Keys - {s.siteId}
    ensures |r.log| == |s.log| + |infoOrder| + |stationOrder| + |circleOrder| + 2
    ensures r.log[..|s.log|] == s.log
    ensures r.gid == s.gid && r.prevCarGeo == s.prevCarGeo
  {
    s.(carMarkerMap := map[], carInfoMarkerMap := map[],
       stationMarkerMap := map[], circleMarkerMap := map[],
       polylineLayer := s.polylineLayer - {s.siteId},
       log := s.log + DestroyCalls(CarInfoGroup, infoOrder) + DestroyCalls(StationGroup, stationOrder)
              + DestroyCalls(CircleGroup, circleOrder)
              + [RemoveMarkers(s.carMarkerMap.Keys), RemovePolyline(s.siteId)])
  }
}
