# TMapHandler and the custom DOM overlays, modelled in Dafny

This project models the map layer of a vehicle-monitoring web page built on
the Tencent Maps GL SDK:

- `TMapHandler` (src/utils/TMapHadler.ts) keeps four lookup tables keyed by
  business identifier: car geometries and car info windows by vehicle code,
  station info windows and station circles by station id. It also keeps a
  draw-order counter `gid`, the last activated car `prevCarGeo`, and the
  current site's route.
- Its operations are:
  - render the cars: filter, style, then add or update each car;
  - render a route;
  - render the stations;
  - activate a car, directly or through a click on the car layer;
  - show or hide all station windows;
  - look up a car;
  - destroy everything.
- The custom DOM overlays (src/utils/CustomDOMOverlay.ts):
  - An info window whose width is 8, 15 or 12 pixels per character for a car,
    a station or anything else. It starts hidden, the caller's style entries
    override its defaults, and `setVisible` hides it only for a defined,
    non-null, falsy argument.
  - A circle marker.
  - Both centre their element on their map position in `updateDOM`, and do
    nothing when no map is attached.

The Dafny modules:

- `Common`: `Option` and a symbolic map position.
- `DomOverlay`: the overlay arithmetic as functions. The two overlay classes
  have `position`, type, content, style and element-style fields, updated by
  `SetVisible` and `UpdateDOM`.
- `HandlerModel`: the handler's state as a value `HandlerState`, every
  operation as a function from the state before to the state after, and the
  handler's invariant `Inv`:
  - the car tables share their keys, and so do the station tables;
  - every car's id is its key;
  - every finite rank is at most `gid`, and no two cars share a rank;
  - only the car `prevCarGeo` names can have rank Infinity;
  - a car has the active style and a visible info window exactly when its
    rank is Infinity.
- `HandlerProperties`: lemmas about those functions, including the invariant
  over any sequence of calls.
- `MapHandler`: the class `TMapHandler`. Its fields are updated in place,
  with loops where the source loops. These methods are proved to leave
  `State()` equal to the matching `HandlerModel` function of the state
  before: the constructor, `RenderCarMarkers`, `RenderEachCar`, `RenderCar`,
  `UpdateCar`, `AddCar`, `RenderPath`, `RenderStationMarkers`,
  `RenderStation`, `ActiveCurrCar`, `DemoteCar`, `PromoteCar`,
  `OnMarkerClick`, `ToggleStations` and `Destroy`. The public mutators
  (`RenderCarMarkers`, `RenderPath`, `RenderStationMarkers`,
  `ActiveCurrCar`, `OnMarkerClick` and `ToggleStations`) also require and
  keep `Valid()`, and `Destroy` ends in it. The helpers `SetCarStyles`,
  `ToggleEachStation`, `DestroyGroup`, `DestroyOverlays` and `ClearTables`
  state instead the new value of each field they change, and that the other
  fields stay.

SDK objects are records:
- a car geometry: id, style id, position, properties, rank, callback;
- an info window: position, type, text, element style;
- a circle: its position;
- a polyline.

A ghost `log` records these calls, in order:
- on the car layer: `setStyles`, `add`, `updateGeometries`, `remove`;
- on the polyline layer: `add`, `updateGeometries`, `remove`;
- on a car info window: `updateDOM`;
- on any overlay: `destroy`;
- the click callback.

Creating an overlay, `setVisible` and registering event handlers are not
logged. Their effect is in the tables: a new entry, or the element style
of the info window. The polyline layer's contents are state, because
`renderPath` chooses between add and update by them.

The handler keeps each info window as an `InfoMarker` record, the value
view of a `DomOverlay.WinInfoMarkerOverlay`. Its `domStyle` starts as
`DomOverlay.CreatedStyle` of its type and text with no user style, which is
what the class's constructor gives. Toggling applies
`DomOverlay.SetVisibleStyle`, which is what the class's `SetVisible`
does. The same holds for `CircleMarker` and `DomOverlay.CircleMarkerOverlay`,
which keep only the position. No lemma connects the records to the
classes: the handler's proofs use the records, and the classes'
contracts are stated on their own.

## Model

| member | source | states |
|---|---|---|
| `DomOverlay.VisibilityFor` | src/utils/CustomDOMOverlay.ts:116-118 | the window is hidden exactly for a defined, non-null, falsy argument; `undefined`, `null` and truthy values show it |
| `DomOverlay.SetVisibleStyle` | src/utils/CustomDOMOverlay.ts:116-118 | setVisible sets only the `visibility` entry of the element style, to VisibilityFor(v); every other entry is kept |
| `DomOverlay.SetVisibleLastWins` | src/utils/CustomDOMOverlay.ts:116-118 | of two setVisible calls only the last matters; repeating a call changes nothing (idempotent) |
| `DomOverlay.DecimalRoundTrip` | src/utils/CustomDOMOverlay.ts:105 | the decimal text a number is turned into when concatenated with 'px' reads back as that number |
| `DomOverlay.PxRoundTrip` | src/utils/CustomDOMOverlay.ts:105 | a pixel length `n + 'px'` parses back to n |
| `DomOverlay.WinDOMWidth` | src/utils/CustomDOMOverlay.ts:101-114 | no contract of its own: the width text getWinDOMWidth builds, length × 8, × 15 or × 12 followed by 'px'; its value is stated by WinDOMWidthByType and its growth by WinDOMWidthMonotone |
| `DomOverlay.WinDOMWidthByType` | src/utils/CustomDOMOverlay.ts:101-114 | getWinDOMWidth is length × 8 px for 'car', × 15 px for 'station', × 12 px for any other type |
| `DomOverlay.WinDOMWidthMonotone` | src/utils/CustomDOMOverlay.ts:101-114 | for one type, a longer text never gives a narrower window |
| `DomOverlay.DecimalString` | src/utils/CustomDOMOverlay.ts:105-111 | the decimal text of the width number is non-empty, all digits, and has no leading zero |
| `DomOverlay.CreatedStyle` | src/utils/CustomDOMOverlay.ts:51-77 | the new element has exactly the user's keys plus width and visibility; user entries win; without a user visibility it is 'hidden'; without a user width it is getWinDOMWidth |
| `DomOverlay.CentredTranslate` | src/utils/CustomDOMOverlay.ts:29-33 | the translation puts the middle of the width × height element on the projected pixel |
| `DomOverlay.WinInfoMarkerOverlay.constructor` | src/utils/CustomDOMOverlay.ts:43-77 | onInit copies position, type and content and defaults style to {}; createDOM gives the created style, hidden unless the user style says otherwise |
| `DomOverlay.WinInfoMarkerOverlay.SetVisible` | src/utils/CustomDOMOverlay.ts:116-118 | the element style becomes SetVisibleStyle of the old one; its visibility is 'hidden' iff the argument is a defined falsy value |
| `DomOverlay.WinInfoMarkerOverlay.UpdateDOM` | src/utils/CustomDOMOverlay.ts:24-34 | without a map nothing changes; with one the transform is the centred translation of the projected position |
| `DomOverlay.CircleMarkerOverlay.constructor` | src/utils/CustomDOMOverlay.ts:9-11 | onInit keeps the position; no transform yet |
| `DomOverlay.CircleMarkerOverlay.UpdateDOM` | src/utils/CustomDOMOverlay.ts:24-34 | the same guard and centring for the circle |
| `HandlerModel.GetLngLat` | src/utils/TMapHadler.ts:304-311 | no position iff either coordinate is empty; otherwise the converted position of exactly those coordinates; agrees with the code as written wherever that returns |
| `HandlerModel.Init` | src/utils/TMapHadler.ts:24-37 | a new handler has four empty tables, gid 0, no active car, no site, no path, and satisfies the invariant |
| `HandlerModel.FilterCars` | src/utils/TMapHadler.ts:136-139 | a car is kept iff it is in the input and both coordinates are present and not '0.0'; never longer than the input |
| `HandlerModel.HasCoordinates` | src/utils/TMapHadler.ts:136-139 | no contract of its own: the filter's test that both coordinates are present and not '0.0'; FilterCars and FilteredCodes state what it keeps |
| `HandlerModel.Codes` | src/utils/TMapHadler.ts:116 | the vehicle codes are exactly the codes of the listed cars |
| `HandlerModel.ClickGuard` | src/utils/TMapHadler.ts:84-87 | the click acts iff the clicked car is not the active one; it agrees with the guard as written wherever that does not throw |
| `HandlerModel.PathPositions` | src/utils/TMapHadler.ts:197 | one position per route point, in order, each getLngLat of that point |
| `HandlerModel.DestroyCalls` | src/utils/TMapHadler.ts:280-288 | one destroy call per visited key, in visiting order |
| `HandlerModel.GetLngLatAsWritten` | src/utils/TMapHadler.ts:304-311 | getLngLat as written throws exactly when a coordinate is empty; when it returns, it returns a position |
| `HandlerModel.ClickGuardAsWritten` | src/utils/TMapHadler.ts:84 | the guard as written throws exactly when prevCarGeo is null; otherwise it holds iff the clicked id differs from prevCarGeo's |
| `HandlerModel.Inv` | src/utils/TMapHadler.ts:135-297 | no contract of its own: the invariant the handler keeps (listed above); Init, StepInv and Run prove it of every reachable state |
| `HandlerModel.StyleTable` | src/utils/TMapHadler.ts:114-131 | every style setCarStyles builds is 45 × 24 with anchor (22, 24) |
| `HandlerModel.CarStyle` | src/utils/TMapHadler.ts:117-130 | no contract of its own: one car's style, 45 × 24, anchor (22, 24), rotation azimuth + 180; StyleTable's contract states the sizes and anchor of every entry |
| `HandlerModel.NewCarInfo` | src/utils/TMapHadler.ts:183-188 | a new car's info window is at the car's position, has type 'car', shows the vehicle name and starts hidden |
| `HandlerModel.CarStep` | src/utils/TMapHadler.ts:147-190 | after one forEach step the two car tables still share their keys, the item's code has a car at the item's position carrying the item as its properties, and gid grew by at most one |
| `HandlerModel.RenderCars` | src/utils/TMapHadler.ts:146-191 | after the forEach the two car tables share their keys, the car keys are the old keys plus the items' codes, and gid has not decreased |
| `HandlerModel.RenderCarMarkersSpec` | src/utils/TMapHadler.ts:135-192 | after renderCarMarkers the car keys are the old keys plus the codes of the cars that pass the filter, the two car tables share their keys, and gid has not decreased |
| `HandlerModel.NewStationMarker` | src/utils/TMapHadler.ts:227-231 | a new station's info window is at the station's position, has type 'station', shows the station name and starts hidden |
| `HandlerModel.StationStep` | src/utils/TMapHadler.ts:226-244 | the station table gains the item's id, and every entry already present is kept |
| `HandlerModel.RenderStations` | src/utils/TMapHadler.ts:225-245 | no station entry present before the forEach is replaced by it |
| `HandlerModel.StationIds` | src/utils/TMapHadler.ts:225-245 | the ids of the listed stations, in both directions: every item's id is in it and every member is some item's id |
| `HandlerModel.Demote` | src/utils/TMapHadler.ts:252-259 | the previous car's window is hidden and its rank is finite and above the old gid; no other car changes; the tables' keys and prevCarGeo stay |
| `HandlerModel.Promote` | src/utils/TMapHadler.ts:260-266 | the car gets rank Infinity and becomes prevCarGeo, and its window is visible; no other car changes; the tables' keys and gid stay |
| `HandlerModel.ActiveCurrCarSpec` | src/utils/TMapHadler.ts:248-267 | activeCurrCar throws exactly when prevCarGeo names a car no longer in the tables; otherwise the set of cars stays, and a known code ends on top as prevCarGeo |
| `HandlerModel.ClickSpec` | src/utils/TMapHadler.ts:82-88 | a click on the active car changes nothing; the click throws exactly when another car is clicked while prevCarGeo names a car no longer in the tables; otherwise the set of cars stays |
| `HandlerModel.ToggledAll` | src/utils/TMapHadler.ts:270-272 | every window of the table gets the visibility setVisible gives the argument; keys, positions, types and texts stay |
| `HandlerModel.Toggled` | src/utils/TMapHadler.ts:271 | setVisible on one window gives it the visibility of the argument and keeps its position, type and text |
| `HandlerModel.ToggleStationsSpec` | src/utils/TMapHadler.ts:269-273 | only the station table changes, and its keys stay |
| `HandlerModel.RenderPathSpec` | src/utils/TMapHadler.ts:194-221 | an empty route changes nothing; otherwise siteId is set, there is one position per point, and the layer holds the route under the site id with those positions; only siteId, paths, the polyline layer and the log change |
| `HandlerModel.DestroySpec` | src/utils/TMapHadler.ts:279-297 | the four tables are empty; the polyline layer loses the current site id; the log keeps its old calls and grows by one call per visited key plus the two removals; gid and prevCarGeo stay |
| `HandlerProperties.StyleKeysDistinct` | src/utils/TMapHadler.ts:117-124 | a 'default-' key never equals an 'active-' key, and each prefix keeps codes apart |
| `HandlerProperties.StyleTableKeys` | src/utils/TMapHadler.ts:114-132 | setCarStyles' table has exactly the keys 'default-' + code and 'active-' + code of the given cars |
| `HandlerProperties.StyleTableSize` | src/utils/TMapHadler.ts:114-132 | the style table has two entries per distinct vehicle |
| `HandlerProperties.StyleTableEntry` | src/utils/TMapHadler.ts:117-130 | a vehicle's two styles come from its last occurrence: 45 × 24, anchor (22, 24), rotation azimuth + 180, normal and active image |
| `HandlerProperties.FilterCarsAppend` | src/utils/TMapHadler.ts:136-139 | the filter keeps input order: filtering a concatenation is concatenating the filtered parts |
| `HandlerProperties.FilterCarsIdempotent` | src/utils/TMapHadler.ts:136-139 | filtering twice is filtering once |
| `HandlerProperties.FilteredCarsHavePositions` | src/utils/TMapHadler.ts:136-139 | every car past the filter has a position, so the add and update paths never see an undefined one |
| `HandlerProperties.CarStepAdds` | src/utils/TMapHadler.ts:171-190 | a new code gets a geometry with id = code, style 'default-' + code, rank ++gid and the callback; and a hidden 'car' window showing the vehicle name; the add is logged; nothing else changes |
| `HandlerProperties.CarStepUpdates` | src/utils/TMapHadler.ts:147-170 | a known code gets the new position and properties; a fresh rank ++gid unless its rank is Infinity, which stays; id, style and callback stay; its window moves along; nothing else changes |
| `HandlerProperties.CarStepFreshRank` | src/utils/TMapHadler.ts:154-156 | a finite rank handed out by a step is the new gid, above every rank handed out before |
| `HandlerProperties.CarStepInv` | src/utils/TMapHadler.ts:146-191 | one add or update keeps the handler's invariant |
| `HandlerProperties.RenderCarsFrame` | src/utils/TMapHadler.ts:146-191 | after the forEach the car table has the old keys plus the items' codes; cars not listed are untouched; an active car stays active; gid does not decrease; only the car tables, gid and the log change |
| `HandlerProperties.RenderCarsInv` | src/utils/TMapHadler.ts:146-191 | the whole forEach keeps the invariant |
| `HandlerProperties.FilteredCodes` | src/utils/TMapHadler.ts:136-139 | a code is among the rendered codes iff some input car with that code has both coordinates present and not '0.0' |
| `HandlerProperties.RenderCarMarkersEffect` | src/utils/TMapHadler.ts:135-192 | renderCarMarkers keeps the invariant, first sets the style table of the filtered cars, adds or updates exactly the filtered codes, each with the position and properties of its last filtered occurrence and its info window at that position, leaves every other car alone, and never lowers gid |
| `HandlerProperties.RenderCarMarkersTables` | src/utils/TMapHadler.ts:135-192 | renderCarMarkers keeps the invariant, sets the style table of the filtered cars, makes the car keys the old keys plus the filtered codes, leaves every other car alone, and never lowers gid |
| `HandlerProperties.RenderCarMarkersLastWins` | src/utils/TMapHadler.ts:135-192 | after renderCarMarkers, the car of every code has the position and properties of the last filtered car with that code, and its info window sits at that position |
| `HandlerProperties.RenderCarsLastWins` | src/utils/TMapHadler.ts:146-191 | the forEach runs in input order: a car that no later item shares a code with ends with its own position and properties, and its info window at that position |
| `HandlerProperties.RenderCarsLogExtends` | src/utils/TMapHadler.ts:146-191 | the forEach only appends to the log of SDK calls |
| `HandlerProperties.RenderStationsFrame` | src/utils/TMapHadler.ts:223-246 | both station tables gain exactly the items' ids; existing entries stay as they were; nothing outside the two tables changes |
| `HandlerProperties.RenderStationsInv` | src/utils/TMapHadler.ts:223-246 | renderStationMarkers keeps the invariant |
| `HandlerProperties.RenderStationsFirstWins` | src/utils/TMapHadler.ts:226-244 | a new station id gets its overlays from its first occurrence: a hidden 'station' window with the name and a circle, both at the station's position |
| `HandlerProperties.ActiveCurrCarFails` | src/utils/TMapHadler.ts:252-256 | activeCurrCar throws iff prevCarGeo names a car no longer in the tables |
| `HandlerProperties.ActiveCurrCarInv` | src/utils/TMapHadler.ts:248-267 | when it does not throw, activeCurrCar keeps the invariant and the set of cars |
| `HandlerProperties.ActiveCurrCarPromotes` | src/utils/TMapHadler.ts:260-266 | a known code gets the active style and rank Infinity, its window is shown, it becomes prevCarGeo, and the geometry is sent to the layer; with an unknown code prevCarGeo and the log stay |
| `HandlerProperties.ActiveCurrCarDemotes` | src/utils/TMapHadler.ts:252-259 | the previous car, if different, returns to 'default-' with rank gid + 1, above every earlier rank, and its window hides; gid grows by one iff there was a previous car |
| `HandlerProperties.ActiveCurrCarFrame` | src/utils/TMapHadler.ts:248-267 | no car other than the current and the previous one is touched |
| `HandlerProperties.AtMostOneActive` | src/utils/TMapHadler.ts:262 | in every state satisfying the invariant at most one car has rank Infinity |
| `HandlerProperties.ClickOnActiveIsNoop` | src/utils/TMapHadler.ts:84 | a click on the active car changes nothing |
| `HandlerProperties.ClickActivates` | src/utils/TMapHadler.ts:82-88 | a click on another known car makes it the active one on top, keeps the invariant, and then calls its callback with its properties |
| `HandlerProperties.ClickAfterUnknownCodeIgnored` | src/utils/TMapHadler.ts:252-266 | activeCurrCar with an unknown code demotes the active car but leaves prevCarGeo naming it, so a later click on that car is ignored |
| `HandlerProperties.LogAppendKeepsInv` | src/utils/TMapHadler.ts:86 | calling the click callback does not touch the invariant |
| `HandlerProperties.FirstClickThrowsAsWritten` | src/utils/TMapHadler.ts:84 | with the guard as written the first click after construction throws, while the intended guard lets it through |
| `HandlerProperties.MissingCoordinateThrowsAsWritten` | src/utils/TMapHadler.ts:306-308 | with the code as written a point without a longitude throws, while the intended getLngLat returns no position |
| `HandlerProperties.ToggleStationsEffect` | src/utils/TMapHadler.ts:269-273 | every station window gets the visibility setVisible gives the argument; position, type and text stay; nothing else changes |
| `HandlerProperties.ToggleStationsInv` | src/utils/TMapHadler.ts:269-273 | toggleStations keeps the invariant |
| `HandlerProperties.ToggleStationsLastWins` | src/utils/TMapHadler.ts:269-273 | of two toggleStations calls only the last matters; in particular the operation is idempotent |
| `HandlerProperties.RenderPathEffect` | src/utils/TMapHadler.ts:194-221 | an empty route changes nothing; otherwise siteId and paths are set and the route is added in blue to an empty layer or updated by site id in deep blue; cars and stations are untouched; the invariant is kept |
| `HandlerProperties.DestroyEffect` | src/utils/TMapHadler.ts:279-297 | destroy empties the four tables, removes the current site's route, keeps gid, prevCarGeo, siteId and paths, only appends to the log, and satisfies the invariant |
| `HandlerProperties.DestroyCallsOrder` | src/utils/TMapHadler.ts:279-291 | destroy's calls are the car windows, the station windows and the circles in loop order, then the removal of the cars, then the removal of the route |
| `HandlerProperties.DestroyCallsEffect` | src/utils/TMapHadler.ts:279-291 | every overlay of the three tables is destroyed, each exactly once (the count matches the tables' sizes); the car layer loses exactly carMarkerMap's keys; the polyline layer loses the current site |
| `HandlerProperties.EnumeratesLength` | src/utils/TMapHadler.ts:280 | a for..in visit of a table's keys is as long as the table is large |
| `HandlerProperties.ActiveCurrCarAfterDestroy` | src/utils/TMapHadler.ts:252-256 | once a car has been active, destroy leaves prevCarGeo dangling, so activeCurrCar right after destroy throws (until renderCarMarkers adds a car with that id again) |
| `HandlerProperties.EarlierRouteSurvivesDestroy` | src/utils/TMapHadler.ts:194-221 | a route for an earlier site stays on the polyline layer after destroy, which removes only the current site's route |
| `HandlerProperties.StepInv` | src/utils/TMapHadler.ts:135-297 | every operation keeps the invariant and never lowers gid |
| `HandlerProperties.Run` | src/utils/TMapHadler.ts:24-297 | every state reachable from the constructor by any sequence of calls satisfies the invariant |
| `HandlerProperties.RunGidMonotone` | src/utils/TMapHadler.ts:155-258 | gid never decreases along a sequence of calls, and only the car prevCarGeo names is ever drawn on top |
| `MapHandler.BuildCarStyles` | src/utils/TMapHadler.ts:114-131 | the loop builds StyleTable of the cars, whose keys are the 'default-' and 'active-' keys of their codes |
| `MapHandler.TMapHandler.constructor` | src/utils/TMapHadler.ts:24-37 | the new handler's state is Init(), which satisfies the invariant |
| `MapHandler.TMapHandler.SetCarStyles` | src/utils/TMapHadler.ts:114-133 | one call setting the style table of the given cars is made on the car layer |
| `MapHandler.TMapHandler.RenderCarMarkers` | src/utils/TMapHadler.ts:135-192 | the new state is RenderCarMarkersSpec of the old; the invariant is kept |
| `MapHandler.TMapHandler.RenderEachCar` | src/utils/TMapHadler.ts:146-191 | the forEach loop leaves the state RenderCars of the cars in order |
| `MapHandler.TMapHandler.RenderCar` | src/utils/TMapHadler.ts:147-190 | one forEach step in place: a known code takes the update path, a new one the add path, and the state becomes CarStep of the old one |
| `MapHandler.TMapHandler.UpdateCar` | src/utils/TMapHadler.ts:147-170 | the update path in place: the state becomes CarStep of the old one |
| `MapHandler.TMapHandler.AddCar` | src/utils/TMapHadler.ts:171-190 | the add path in place: the state becomes CarStep of the old one |
| `MapHandler.TMapHandler.RenderPath` | src/utils/TMapHadler.ts:194-221 | the new state is RenderPathSpec of the old; the invariant is kept |
| `MapHandler.TMapHandler.RenderStationMarkers` | src/utils/TMapHadler.ts:223-246 | the forEach loop leaves the state RenderStations of the old; the invariant is kept |
| `MapHandler.TMapHandler.RenderStation` | src/utils/TMapHadler.ts:226-244 | a known id changes nothing; a new one gets its two overlays |
| `MapHandler.TMapHandler.ActiveCurrCar` | src/utils/TMapHadler.ts:248-267 | returns false and changes nothing iff the call throws; otherwise the new state is ActiveCurrCarSpec of the old; the invariant is kept |
| `MapHandler.TMapHandler.DemoteCar` | src/utils/TMapHadler.ts:252-259 | in place: the previous car's window hides, its style is 'default-', its rank is ++gid |
| `MapHandler.TMapHandler.PromoteCar` | src/utils/TMapHadler.ts:260-266 | in place: the car gets the active style and rank Infinity, its window shows, it is sent to the layer and becomes prevCarGeo |
| `MapHandler.TMapHandler.OnMarkerClick` | src/utils/TMapHadler.ts:82-88 | the click handler with the intended guard: the new state is ClickSpec of the old; the invariant is kept |
| `MapHandler.TMapHandler.ToggleStations` | src/utils/TMapHadler.ts:269-273 | the new state is ToggleStationsSpec of the old; the invariant is kept |
| `MapHandler.TMapHandler.ToggleEachStation` | src/utils/TMapHadler.ts:270-272 | the for..in loop toggles every station window once and keeps the keys |
| `MapHandler.TMapHandler.GetCarMarker` | src/utils/TMapHadler.ts:275-277 | a car is found iff its code is a key; the found geometry's id is the code; it is on top iff it has the active style, and then it is prevCarGeo |
| `MapHandler.TMapHandler.DestroyGroup` | src/utils/TMapHadler.ts:280-288 | a for..in loop destroys every overlay of one table, each key exactly once |
| `MapHandler.TMapHandler.DestroyOverlays` | src/utils/TMapHadler.ts:280-288 | the three for..in loops visit every key of each overlay table exactly once and append one destroy call per key, in visiting order |
| `MapHandler.TMapHandler.ClearTables` | src/utils/TMapHadler.ts:289-297 | the car ids and then the current route are removed from their layers, and the four tables are emptied |
| `MapHandler.TMapHandler.Destroy` | src/utils/TMapHadler.ts:279-297 | the new state is DestroySpec of the old for the orders the loops visited; every key of each table was visited once; the invariant holds |

## Left out

- `load`, `createMap`, `initPolylineLayer`, `hiddenMapIcon`, `initDOMOverlay` and `setFitView`:
  - script loading, map creation and camera fitting are SDK and browser work;
  - the model starts from a handler whose layers exist, and the polyline
    layer starts empty.
- The event wiring is left out: the circle's mouseover and mouseout handlers,
  the info window's click emitter, and `onDestroy`'s listener removal. The
  car layer's click handler itself is modelled as `OnMarkerClick`.
- `transformFromWGSToGCJ` is a floating-point formula in a file that is not
  part of this model. A position is kept as the symbolic result
  `Gcj02Of(longitude, latitude)`.
- getLngLat's `+longitude` number conversion is left out, and so is a
  falsy non-string coordinate such as the number 0. Coordinates are text,
  and only the empty string counts as missing.
- `HandlerModel.GetLngLat` follows the evident intent (see Findings), not
  the throw at line 307. The rest of the model uses it.
- The 100 ms `setTimeout` in renderPath is left out. It re-sends the updated
  route in blue; the model records only the immediate deep-blue update.
- The position difference computed but unused at lines 150-151 is left out,
  and so is the commented-out `moveAlong`.
- The unreachable `if (!data)` at line 140 (an array is always truthy) is
  left out.
- The CSS literals of createDOM other than width and visibility are left
  out, and so are the DOM tree and innerHTML. Element sizes (`clientWidth`,
  `clientHeight`) come from the browser's layout and are taken as given.
- `HandlerProperties.RenderCarsFrame`: the model assumes
  `updateGeometries` replaces the stored geometry by id. The handler mutates
  the very geometry object it stored, so aliasing between the handler's
  tables and the SDK layer is not modelled.
- `MapHandler.TMapHandler.Destroy`: `polylineLayer.remove(this.siteId)`
  passes a string where the SDK documents an array of ids. It is modelled as
  removing that one id.
- The demoted car is not sent to the layer. activeCurrCar changes the
  previous geometry's style and rank in place without `updateGeometries`,
  and the model records no call for it.
- Text length is counted in characters, not UTF-16 code units, as
  `content.length` counts them.
- for..in visiting order is left open. Destroy's loops may visit keys in
  any order; the orders are returned as ghost values.
- The `type.ts` declarations are not part of this model.
- `HandlerModel.CarItem` keeps `azimuth` as the number `+item.azimuth`.
  The conversion is made before the model starts, so the model loses
  NaN for a non-numeric string and the rounding of a double. The
  geometry's `properties`, which the click callback receives, therefore
  hold the converted number, where the source hands back the original
  item with its string fields.
- Numbers are exact where the source has IEEE doubles. The pixel
  arithmetic of updateDOM (half the element's width and height, subtracted
  from the projected pixel) is done in exact reals. The translation is kept
  as its two numbers, not as the text `left + 'px'` of a double. The counter
  `gid` is an unbounded integer. The model does not capture rounding, the
  number-to-text conversion, or the loss of precision past 2^53.
- The polyline layer's `updateGeometries` is modelled as an insert or
  replace by id, and `remove` as deleting that id. Nothing in the handler
  states this; it is an assumption about the SDK.
  `HandlerProperties.EarlierRouteSurvivesDestroy` and
  `HandlerProperties.RenderPathEffect` depend on it.

## Findings

| source | as written | input that shows it | evidently intended | confidence | as-written member | corrected member |
|---|---|---|---|---|---|---|
| src/utils/TMapHadler.ts:84 | the click guard reads `this.prevCarGeo.id` while `prevCarGeo` is still null | the first click on any car after construction (no car activated yet): TypeError, the car is not activated and the callback is not called | act on the click unless the clicked car is the active one (`prevCarGeo?.id`) | not executed | `HandlerModel.ClickGuardAsWritten`, `HandlerProperties.FirstClickThrowsAsWritten` | `HandlerModel.ClickGuard`, used by `MapHandler.TMapHandler.OnMarkerClick` |
| src/utils/TMapHadler.ts:307 | the warning for a missing coordinate passes `position`, which is not declared in getLngLat | a route point or station with an empty longitude: ReferenceError in renderPath or renderStationMarkers, assuming no global named `position` | warn and return no position | not executed | `HandlerModel.GetLngLatAsWritten`, `HandlerProperties.MissingCoordinateThrowsAsWritten` | `HandlerModel.GetLngLat` |
