/**
 * TMapHandler: the object that keeps the map's car markers, info windows,
 * station markers and route in step with the data it is given. Each method
 * updates the handler's fields in place and is proved to leave them as the
 * matching function of HandlerModel says, which in turn is shown to keep
 * the handler's invariant in HandlerProperties.
 */
module MapHandler {
  import opened Common
  import opened HandlerModel
  import DomOverlay
  import HandlerProperties

  /**
   * The style table of setCarStyles: for every car, in order, the normal and
   * the active style under 'default-' + code and 'active-' + code.
   */
  method BuildCarStyles(items: seq<CarItem>) returns (styles: map<string, MarkerStyle>)
    ensures styles == StyleTable(items)
    ensures styles.Keys == HandlerProperties.DefaultKeys(Codes(items)) + HandlerProperties.ActiveKeys(Codes(items))
  {
    styles := map[];
    var i := 0;
    while i < |items|
      invariant 0 <= i <= |items|
      invariant styles == StyleTable(items[..i])
    {
      var item := items[i];
      styles := styles[DefaultKey(item.vehicleCode) := MarkerStyle(45, 24, CarImage, 22, 24, item.azimuth + 180.0)];
      styles := styles[ActiveKey(item.vehicleCode) := MarkerStyle(45, 24, ActiveCarImage, 22, 24, item.azimuth + 180.0)];
      assert items[..i + 1][..i] == items[..i];
      i := i + 1;
    }
    assert items[..i] == items;
    HandlerProperties.StyleTableKeys(items);
  }

  class TMapHandler {
    var carMarkerMap: map<string, CarGeometry>
    var carInfoMarkerMap: map<string, InfoMarker>
    var stationMarkerMap: map<string, InfoMarker>
    var circleMarkerMap: map<string, CircleMarker>
    var gid: nat
    /** The id of the geometry last activated (the source keeps the geometry itself). */
    var prevCarGeo: Option<string>
    var siteId: string
    var paths: seq<Option<LatLng>>
    /** The polyline layer's geometries, by id. */
    var polylineLayer: map<string, Polyline>
    /** The calls made on the SDK's layers and overlays so far. */
    ghost var log: seq<SdkCall>

    ghost function State(): HandlerState
      reads this
    {
      HandlerState(carMarkerMap, carInfoMarkerMap, stationMarkerMap, circleMarkerMap, gid, prevCarGeo,
                   siteId, paths, polylineLayer, log)
    }

    ghost predicate Valid()
      reads this
    {
      Inv(State())
    }

    constructor ()
      ensures State() == Init()
      ensures Valid()
    {
      siteId := "";
      prevCarGeo := None;
      gid := 0;
      paths := [];
      carMarkerMap := map[];
      carInfoMarkerMap := map[];
      stationMarkerMap := map[];
      circleMarkerMap := map[];
      polylineLayer := map[];
      log := [];
    }

    method SetCarStyles(items: seq<CarItem>)
      modifies this`log
      ensures log == old(log) + [SetMarkerStyles(StyleTable(items))]
    {
      var styles := BuildCarStyles(items);
      log := log + [SetMarkerStyles(styles)];
    }

    /** Adds the cars not seen before, updates the others. */
    method RenderCarMarkers(data: seq<CarItem>, cb: Option<Callback>)
      requires Valid()
      modifies this
      ensures Valid()
      ensures State() == RenderCarMarkersSpec(old(State()), data, cb)
    {
      var items := FilterCars(data);
      SetCarStyles(items);
      RenderEachCar(items, cb);
      HandlerProperties.RenderCarMarkersEffect(old(State()), data, cb);
    }

    /** The forEach of renderCarMarkers: the cars in order. */
    method RenderEachCar(items: seq<CarItem>, cb: Option<Callback>)
      requires SharedKeys(State())
      modifies this
      ensures State() == HandlerModel.RenderCars(old(State()), items, cb)
    {
      var i := 0;
      while i < |items|
        invariant 0 <= i <= |items|
        invariant State() == HandlerModel.RenderCars(old(State()), items[..i], cb)
      {
        RenderCar(items[i], cb);
        assert items[..i + 1][..i] == items[..i];
        i := i + 1;
      }
      assert items[..i] == items;
    }

    /** One car of renderCarMarkers: update the car if known, add it otherwise. */
    method RenderCar(item: CarItem, cb: Option<Callback>)
      requires SharedKeys(State())
      modifies this
      ensures State() == CarStep(old(State()), item, cb)
    {
      if item.vehicleCode in carMarkerMap {
        UpdateCar(item, cb);
      } else {
        AddCar(item, cb);
      }
    }

    /** A known car moves: new position and properties, a fresh rank unless it is active. */
    method UpdateCar(item: CarItem, cb: Option<Callback>)
      requires SharedKeys(State()) && item.vehicleCode in carMarkerMap
      modifies this`carMarkerMap, this`carInfoMarkerMap, this`gid, this`log
      ensures State() == CarStep(old(State()), item, cb)
    {
      var code := item.vehicleCode;
      var position := GetLngLat(item.longitude, item.latitude);
      var geometry := carMarkerMap[code].(position := position, properties := item);
      if geometry.rank != Inf {
        gid := gid + 1;
        geometry := geometry.(rank := Finite(gid));
      }
      carMarkerMap := carMarkerMap[code := geometry];
      log := log + [UpdateMarkers([geometry])];
      carInfoMarkerMap := carInfoMarkerMap[code := carInfoMarkerMap[code].(position := position)];
      log := log + [RedrawOverlay(code)];
    }

    /** A new car: a geometry with the default style and a fresh rank, and a hidden info window. */
    method AddCar(item: CarItem, cb: Option<Callback>)
      requires SharedKeys(State()) && item.vehicleCode !in carMarkerMap
      modifies this`carMarkerMap, this`carInfoMarkerMap, this`gid, this`log
      ensures State() == CarStep(old(State()), item, cb)
    {
      var code := item.vehicleCode;
      var position := GetLngLat(item.longitude, item.latitude);
      gid := gid + 1;
      var geometry := CarGeometry(code, DefaultKey(code), position, item, Finite(gid), cb);
      carMarkerMap := carMarkerMap[code := geometry];
      log := log + [AddMarkers([geometry])];
      carInfoMarkerMap := carInfoMarkerMap[code := NewCarInfo(item)];
    }

    /** Draws the route of a site: added to an empty layer, otherwise updated by the site id. */
    method RenderPath(data: seq<PathPoint>, siteId: string)
      requires Valid()
      modifies this
      ensures Valid()
      ensures State() == RenderPathSpec(old(State()), data, siteId)
    {
      if |data| > 0 {
        this.siteId := siteId;
        var positions := PathPositions(data);
        if |polylineLayer| > 0 {
          var line := Polyline(siteId, "deeply-blue", positions);
          polylineLayer := polylineLayer[siteId := line];
          log := log + [UpdatePolylines([line])];
        } else {
          var line := Polyline(siteId, "blue", positions);
          polylineLayer := polylineLayer[siteId := line];
          log := log + [AddPolylines([line])];
        }
        paths := positions;
      }
      HandlerProperties.RenderPathEffect(old(State()), data, siteId);
    }

    /** Creates the info window and the circle of every station id not seen before. */
    method RenderStationMarkers(data: seq<StationItem>)
      requires Valid()
      modifies this
      ensures Valid()
      ensures State() == RenderStations(old(State()), data)
    {
      ghost var start := State();
      var i := 0;
      while i < |data|
        invariant 0 <= i <= |data|
        invariant State() == RenderStations(start, data[..i])
      {
        RenderStation(data[i]);
        assert data[..i + 1][..i] == data[..i];
        i := i + 1;
      }
      assert data[..i] == data;
      HandlerProperties.RenderStationsInv(start, data);
    }

    /** One station of renderStationMarkers: its two overlays, unless the id is known. */
    method RenderStation(item: StationItem)
      modifies this`stationMarkerMap, this`circleMarkerMap
      ensures State() == StationStep(old(State()), item)
    {
      if item.stationId !in stationMarkerMap {
        var position := GetLngLat(item.longitude, item.latitude);
        stationMarkerMap := stationMarkerMap[item.stationId := NewStationMarker(item)];
        circleMarkerMap := circleMarkerMap[item.stationId := CircleMarker(position)];
      }
    }

    /**
     * Makes `code` the active car. `ok` is false when the call throws: the
     * previous active car is no longer in the tables (after destroy).
     */
    method ActiveCurrCar(code: string) returns (ok: bool)
      requires Valid()
      modifies this
      ensures Valid()
      ensures ok <==> ActiveCurrCarSpec(old(State()), code).Some?
      ensures ok ==> State() == ActiveCurrCarSpec(old(State()), code).value
      ensures !ok ==> State() == old(State())
    {
      if prevCarGeo.Some? {
        var prev := prevCarGeo.value;
        if prev !in carInfoMarkerMap {
          return false;
        }
        DemoteCar(prev);
      }
      if code in carMarkerMap {
        PromoteCar(code);
      }
      ok := true;
      HandlerProperties.ActiveCurrCarInv(old(State()), code);
    }

    /** The previous active car: info window hidden, default style, a fresh rank. */
    method DemoteCar(code: string)
      requires code in carMarkerMap && code in carInfoMarkerMap
      modifies this`carInfoMarkerMap, this`carMarkerMap, this`gid
      ensures State() == Demote(old(State()), code)
    {
      var info := carInfoMarkerMap[code];
      carInfoMarkerMap := carInfoMarkerMap[code := info.(domStyle :=
                            DomOverlay.SetVisibleStyle(info.domStyle, DomOverlay.Given(false)))];
      gid := gid + 1;
      carMarkerMap := carMarkerMap[code := carMarkerMap[code].(styleId := DefaultKey(code), rank := Finite(gid))];
    }

    /** The current car: active style, rank Infinity, info window shown, sent to the layer. */
    method PromoteCar(code: string)
      requires code in carMarkerMap && code in carInfoMarkerMap
      modifies this`carInfoMarkerMap, this`carMarkerMap, this`log, this`prevCarGeo
      ensures State() == Promote(old(State()), code)
    {
      var current := carMarkerMap[code].(styleId := ActiveKey(code), rank := Inf);
      carMarkerMap := carMarkerMap[code := current];
      var info := carInfoMarkerMap[code];
      carInfoMarkerMap := carInfoMarkerMap[code := info.(domStyle :=
                            DomOverlay.SetVisibleStyle(info.domStyle, DomOverlay.Given(true)))];
      log := log + [UpdateMarkers([current])];
      prevCarGeo := Some(code);
    }

    /**
     * The car layer's click handler, with the guard as intended: a click on
     * a car other than the active one activates it and then calls its
     * callback with its properties.
     */
    method OnMarkerClick(geometry: CarGeometry) returns (ok: bool)
      requires Valid()
      modifies this
      ensures Valid()
      ensures ok <==> ClickSpec(old(State()), geometry).Some?
      ensures ok ==> State() == ClickSpec(old(State()), geometry).value
      ensures !ok ==> State() == old(State())
    {
      if !ClickGuard(prevCarGeo, geometry.id) {
        return true;
      }
      ok := ActiveCurrCar(geometry.id);
      if ok && geometry.cb.Some? {
        HandlerProperties.LogAppendKeepsInv(State(), InvokeClickCallback(geometry.cb.value, geometry.properties));
        log := log + [InvokeClickCallback(geometry.cb.value, geometry.properties)];
      }
    }

    /** setVisible(visible) on every station's info window, key by key. */
    method ToggleStations(visible: DomOverlay.VisibleArg)
      requires Valid()
      modifies this`stationMarkerMap
      ensures Valid()
      ensures State() == ToggleStationsSpec(old(State()), visible)
    {
      ToggleEachStation(visible);
      HandlerProperties.ToggledTable(old(State()), stationMarkerMap, visible);
      HandlerProperties.ToggleStationsInv(old(State()), visible);
    }

    /** The loop of toggleStations: every station's info window, one key at a time. */
    method ToggleEachStation(visible: DomOverlay.VisibleArg)
      modifies this`stationMarkerMap
      ensures stationMarkerMap.Keys == old(stationMarkerMap).Keys
      ensures forall k :: k in stationMarkerMap ==> stationMarkerMap[k] == Toggled(old(stationMarkerMap)[k], visible)
    {
      var pending := stationMarkerMap.Keys;
      while pending != {}
        invariant pending <= stationMarkerMap.Keys == old(stationMarkerMap).Keys
        invariant forall k :: k in pending ==> stationMarkerMap[k] == old(stationMarkerMap)[k]
        invariant forall k :: k in stationMarkerMap && k !in pending ==>
                    stationMarkerMap[k] == Toggled(old(stationMarkerMap)[k], visible)
        decreases |pending|
      {
        var key :| key in pending;
        stationMarkerMap := stationMarkerMap[key := Toggled(stationMarkerMap[key], visible)];
        pending := pending - {key};
      }
    }

    /** The car stored under `code`, if any: the geometry whose id is that code. */
    function GetCarMarker(code: string): (r: Option<CarGeometry>)
      requires Valid()
      reads this
      ensures r.Some? <==> code in carMarkerMap
      ensures r.Some? ==> r.value.id == code && r.value == carMarkerMap[code]
      ensures r.Some? ==> (r.value.rank == Inf <==> r.value.styleId == "active-" + code)
      ensures r.Some? && r.value.rank == Inf ==> prevCarGeo == Some(code)
    {
      if code in carMarkerMap then
        assert CarConsistent(State(), code);
        Some(carMarkerMap[code])
      else None
    }

    /** Destroys every overlay of one table, in the order a for..in loop visits its keys. */
    method DestroyGroup(group: OverlayGroup, keys: set<string>) returns (ghost order: seq<string>)
      modifies this`log
      ensures Enumerates(order, keys)
      ensures log == old(log) + DestroyCalls(group, order)
    {
      order := [];
      var pending := keys;
      while pending != {}
        invariant pending <= keys
        invariant Enumerates(order, keys - pending)
        invariant log == old(log) + DestroyCalls(group, order)
        decreases |pending|
      {
        var key :| key in pending;
        HandlerProperties.DestroyGroupStep(group, order, keys, pending, key, old(log));
        log := log + [DestroyOverlay(group, key)];
        order := order + [key];
        pending := pending - {key};
      }
      assert keys - pending == keys;
    }

    /** The three for..in loops of destroy: every overlay of the three tables is destroyed. */
    method DestroyOverlays() returns (ghost infoOrder: seq<string>, ghost stationOrder: seq<string>,
                                      ghost circleOrder: seq<string>)
      modifies this`log
      ensures Enumerates(infoOrder, carInfoMarkerMap.Keys)
      ensures Enumerates(stationOrder, stationMarkerMap.Keys)
      ensures Enumerates(circleOrder, circleMarkerMap.Keys)
      ensures log == old(log) + DestroyCalls(CarInfoGroup, infoOrder) + DestroyCalls(StationGroup, stationOrder)
                     + DestroyCalls(CircleGroup, circleOrder)
    {
      infoOrder := DestroyGroup(CarInfoGroup, carInfoMarkerMap.Keys);
      stationOrder := DestroyGroup(StationGroup, stationMarkerMap.Keys);
      circleOrder := DestroyGroup(CircleGroup, circleMarkerMap.Keys);
    }

    /** The end of destroy: removes the cars and the current route from their layers and empties the tables. */
    method ClearTables()
      modifies this`carMarkerMap, this`carInfoMarkerMap, this`stationMarkerMap, this`circleMarkerMap
      modifies this`polylineLayer, this`log
      ensures carMarkerMap == map[] && carInfoMarkerMap == map[]
      ensures stationMarkerMap == map[] && circleMarkerMap == map[]
      ensures polylineLayer == old(polylineLayer) - {siteId}
      ensures log == old(log) + [RemoveMarkers(old(carMarkerMap).Keys)] + [RemovePolyline(siteId)]
    {
      log := log + [RemoveMarkers(carMarkerMap.Keys)];
      polylineLayer := polylineLayer - {siteId};
      log := log + [RemovePolyline(siteId)];
      carMarkerMap := map[];
      carInfoMarkerMap := map[];
      stationMarkerMap := map[];
      circleMarkerMap := map[];
    }

    /**
     * Destroys every overlay, removes the cars and the current route from
     * their layers and empties the four tables. The orders returned are the
     * orders in which the three for..in loops visited the keys.
     */
    method Destroy() returns (ghost infoOrder: seq<string>, ghost stationOrder: seq<string>,
                              ghost circleOrder: seq<string>)
      modifies this
      ensures Valid()
      ensures Enumerates(infoOrder, old(carInfoMarkerMap).Keys)
      ensures Enumerates(stationOrder, old(stationMarkerMap).Keys)
      ensures Enumerates(circleOrder, old(circleMarkerMap).Keys)
      ensures State() == DestroySpec(old(State()), infoOrder, stationOrder, circleOrder)
    {
      ghost var before := State();
      infoOrder, stationOrder, circleOrder := DestroyOverlays();
      ClearTables();
      HandlerProperties.DestroyedState(before, infoOrder, stationOrder, circleOrder, State());
      HandlerProperties.EmptyTablesInv(State());
    }
  }
}
