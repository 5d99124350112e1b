/**
 * What the map handler's operations guarantee, stated about the functions of
 * HandlerModel: which entries each operation adds, changes or leaves alone,
 * how draw ranks are handed out, and that every operation keeps the
 * handler's invariant (shared keys, fresh distinct ranks, at most one active
 * car, whose info window alone is shown).
 */
module HandlerProperties {
  import opened Common
  import opened HandlerModel
  import DomOverlay

  // ---------------------------------------------------------------------------
  // Style keys

  lemma StyleKeysDistinct(a: string, b: string)
    ensures DefaultKey(a) != ActiveKey(b)
    ensures DefaultKey(a) == DefaultKey(b) ==> a == b
    ensures ActiveKey(a) == ActiveKey(b) ==> a == b
  {
    assert DefaultKey(a)[0] == 'd' && ActiveKey(b)[0] == 'a';
    if DefaultKey(a) == DefaultKey(b) {
      assert a == DefaultKey(a)[8..] && b == DefaultKey(b)[8..];
    }
    if ActiveKey(a) == ActiveKey(b) {
      assert a == ActiveKey(a)[7..] && b == ActiveKey(b)[7..];
    }
  }

  function DefaultKeys(codes: set<string>): set<string> {
    set c | c in codes :: DefaultKey(c)
  }

  function ActiveKeys(codes: set<string>): set<string> {
    set c | c in codes :: ActiveKey(c)
  }

  lemma StyleKeysAdd(codes: set<string>, c: string)
    ensures DefaultKeys(codes + {c}) == DefaultKeys(codes) + {DefaultKey(c)}
    ensures ActiveKeys(codes + {c}) == ActiveKeys(codes) + {ActiveKey(c)}
    ensures c !in codes ==> DefaultKey(c) !in DefaultKeys(codes) + ActiveKeys(codes)
    ensures c !in codes ==> ActiveKey(c) !in DefaultKeys(codes) + ActiveKeys(codes)
  {
    forall c' | c' in codes
      ensures DefaultKey(c) == DefaultKey(c') ==> c == c'
      ensures ActiveKey(c) == ActiveKey(c') ==> c == c'
      ensures DefaultKey(c) != ActiveKey(c') && ActiveKey(c) != DefaultKey(c')
    {
      StyleKeysDistinct(c, c');
      StyleKeysDistinct(c', c);
    }
  }

  /** setCarStyles yields exactly the keys 'default-' + code and 'active-' + code. */
  lemma {:induction false} StyleTableKeys(items: seq<CarItem>)
    ensures StyleTable(items).Keys == DefaultKeys(Codes(items)) + ActiveKeys(Codes(items))
  {
    if items != [] {
      var p := items[..|items| - 1];
      var c := items[|items| - 1].vehicleCode;
      StyleTableKeys(p);
      StyleKeysDistinct(c, c);
      StyleKeysAdd(Codes(p), c);
      assert Codes(items) == Codes(p) + {c};
    }
  }

  /** Two style entries per vehicle. */
  lemma {:induction false} StyleTableSize(items: seq<CarItem>)
    ensures |StyleTable(items)| == 2 * |Codes(items)|
  {
    if items != [] {
      var p := items[..|items| - 1];
      var c := items[|items| - 1].vehicleCode;
      var last := items[|items| - 1];
      StyleTableSize(p);
      StyleTableKeys(p);
      StyleKeysDistinct(c, c);
      StyleKeysAdd(Codes(p), c);
      var t := StyleTable(p);
      var t1 := t[DefaultKey(c) := CarStyle(CarImage, last)];
      assert Codes(items) == Codes(p) + {c};
      if c !in Codes(p) {
        assert DefaultKey(c) !in t;
        assert |t1| == |t| + 1;
        assert ActiveKey(c) !in t1;
        assert |Codes(p) + {c}| == |Codes(p)| + 1;
      } else {
        assert DefaultKey(c) in t && ActiveKey(c) in t;
        assert Codes(p) + {c} == Codes(p);
      }
    }
  }

  /**
   * The style of a vehicle comes from its last occurrence: both of its keys
   * carry the normal or the active image, the 45 × 24 size, the anchor
   * (22, 24) and the rotation azimuth + 180.
   */
  lemma {:induction false} StyleTableEntry(items: seq<CarItem>, i: nat)
    requires i < |items|
    requires forall j :: i < j < |items| ==> items[j].vehicleCode != items[i].vehicleCode
    ensures DefaultKey(items[i].vehicleCode) in StyleTable(items)
    ensures StyleTable(items)[DefaultKey(items[i].vehicleCode)]
            == MarkerStyle(45, 24, CarImage, 22, 24, items[i].azimuth + 180.0)
    ensures ActiveKey(items[i].vehicleCode) in StyleTable(items)
    ensures StyleTable(items)[ActiveKey(items[i].vehicleCode)]
            == MarkerStyle(45, 24, ActiveCarImage, 22, 24, items[i].azimuth + 180.0)
  {
    var n := |items|;
    var c := items[i].vehicleCode;
    StyleKeysDistinct(c, c);
    if i < n - 1 {
      var p := items[..n - 1];
      var last := items[n - 1].vehicleCode;
      StyleTableEntry(p, i);
      StyleKeysDistinct(c, last);
      StyleKeysDistinct(last, c);
    }
  }

  // ---------------------------------------------------------------------------
  // The coordinate filter

  /** The filter keeps input order: it distributes over concatenation. */
  lemma {:induction false} FilterCarsAppend(a: seq<CarItem>, b: seq<CarItem>)
    ensures FilterCars(a + b) == FilterCars(a) + FilterCars(b)
  {
    if a == [] {
      assert a + b == b;
    } else {
      assert (a + b)[0] == a[0];
      assert (a + b)[1..] == a[1..] + b;
      FilterCarsAppend(a[1..], b);
    }
  }

  /** Filtering twice is filtering once. */
  lemma {:induction false} FilterCarsIdempotent(data: seq<CarItem>)
    ensures FilterCars(FilterCars(data)) == FilterCars(data)
  {
    if data != [] {
      var head := if HasCoordinates(data[0]) then [data[0]] else [];
      FilterCarsAppend(head, FilterCars(data[1..]));
      FilterCarsIdempotent(data[1..]);
    }
  }

  /** Every car that passes the filter has a position. */
  lemma FilteredCarsHavePositions(data: seq<CarItem>)
    ensures forall x :: x in FilterCars(data) ==> GetLngLat(x.longitude, x.latitude).Some?
  {
  }

  // ---------------------------------------------------------------------------
  // One step of renderCarMarkers

  /**
   * Adding a vehicle whose code is new: a geometry with id = code, the default
   * style and rank ++gid; a hidden 'car' info window under the same key;
   * nothing else changes.
   */
  lemma CarStepAdds(s: HandlerState, item: CarItem, cb: Option<Callback>)
    requires SharedKeys(s)
    requires item.vehicleCode !in s.carMarkerMap
    ensures var r := CarStep(s, item, cb);
            var code := item.vehicleCode;
            && r.gid == s.gid + 1
            && r.carMarkerMap.Keys == s.carMarkerMap.Keys + {code}
            && r.carMarkerMap[code]
               == CarGeometry(code, "default-" + code, GetLngLat(item.longitude, item.latitude),
                              item, Finite(r.gid), cb)
            && r.carInfoMarkerMap[code].kind == "car"
            && r.carInfoMarkerMap[code].content == item.vehicleName
            && InfoVisibility(r.carInfoMarkerMap[code]) == DomOverlay.Hidden
            && (forall k :: k in s.carMarkerMap ==>
                  r.carMarkerMap[k] == s.carMarkerMap[k] && r.carInfoMarkerMap[k] == s.carInfoMarkerMap[k])
            && r.log == s.log + [AddMarkers([r.carMarkerMap[code]])]
            && r == s.(carMarkerMap := r.carMarkerMap, carInfoMarkerMap := r.carInfoMarkerMap,
                       gid := r.gid, log := r.log)
  {
  }

  /**
   * Updating a known vehicle: new position and properties; a fresh rank ++gid
   * unless the car is active, which keeps Infinity; the style, id and
   * callback stay; its info window moves along; nothing else changes.
   */
  lemma CarStepUpdates(s: HandlerState, item: CarItem, cb: Option<Callback>)
    requires SharedKeys(s)
    requires item.vehicleCode in s.carMarkerMap
    ensures var r := CarStep(s, item, cb);
            var code := item.vehicleCode;
            var g := s.carMarkerMap[code];
            && r.carMarkerMap.Keys == s.carMarkerMap.Keys
            && r.carMarkerMap[code].position == GetLngLat(item.longitude, item.latitude)
            && r.carMarkerMap[code].properties == item
            && r.carMarkerMap[code].id == g.id && r.carMarkerMap[code].styleId == g.styleId
            && r.carMarkerMap[code].cb == g.cb
            && (g.rank == Inf ==> r.carMarkerMap[code].rank == Inf && r.gid == s.gid)
            && (g.rank != Inf ==> r.carMarkerMap[code].rank == Finite(s.gid + 1) && r.gid == s.gid + 1)
            && r.carInfoMarkerMap[code]
               == s.carInfoMarkerMap[code].(position := GetLngLat(item.longitude, item.latitude))
            && (forall k :: k in s.carMarkerMap && k != code ==>
                  r.carMarkerMap[k] == s.carMarkerMap[k] && r.carInfoMarkerMap[k] == s.carInfoMarkerMap[k])
            && r == s.(carMarkerMap := r.carMarkerMap, carInfoMarkerMap := r.carInfoMarkerMap,
                       gid := r.gid, log := r.log)
  {
  }

  /**
   * The rank a step hands out is fresh: when the item's car ends with a
   * finite rank, it is the new gid, above every rank handed out before.
   */
  lemma CarStepFreshRank(s: HandlerState, item: CarItem, cb: Option<Callback>)
    requires Inv(s)
    ensures var r := CarStep(s, item, cb);
            var g := r.carMarkerMap[item.vehicleCode];
            g.rank.Finite? ==>
              && g.rank == Finite(r.gid)
              && (forall k :: k in s.carMarkerMap && s.carMarkerMap[k].rank.Finite? ==>
                    s.carMarkerMap[k].rank.n < r.gid)
  {
    RanksHandedOut(s);
  }

  /** Every finite rank in the table has been handed out already: it is at most gid. */
  lemma RanksHandedOut(s: HandlerState)
    requires Inv(s)
    ensures forall k :: k in s.carMarkerMap && s.carMarkerMap[k].rank.Finite? ==> s.carMarkerMap[k].rank.n <= s.gid
  {
    forall k | k in s.carMarkerMap && s.carMarkerMap[k].rank.Finite?
      ensures s.carMarkerMap[k].rank.n <= s.gid
    {
      assert CarConsistent(s, k);
    }
  }

  lemma CarStepInv(s: HandlerState, item: CarItem, cb: Option<Callback>)
    requires Inv(s)
    ensures Inv(CarStep(s, item, cb))
  {
    if item.vehicleCode in s.carMarkerMap {
      CarStepConsistentUpdated(s, item, cb);
    } else {
      CarStepConsistentAdded(s, item, cb);
    }
    CarStepRanks(s, item, cb);
  }

  lemma CarStepConsistentAdded(s: HandlerState, item: CarItem, cb: Option<Callback>)
    requires Inv(s)
    requires item.vehicleCode !in s.carMarkerMap
    ensures var r := CarStep(s, item, cb);
            forall k :: k in r.carMarkerMap ==> CarConsistent(r, k)
  {
    var r := CarStep(s, item, cb);
    var code := item.vehicleCode;
    assert "visibility" in r.carInfoMarkerMap[code].domStyle;
    assert CarConsistent(r, code);
    forall k | k in r.carMarkerMap && k != code
      ensures CarConsistent(r, k)
    {
      assert CarConsistent(s, k);
    }
  }

  lemma CarStepConsistentUpdated(s: HandlerState, item: CarItem, cb: Option<Callback>)
    requires Inv(s)
    requires item.vehicleCode in s.carMarkerMap
    ensures var r := CarStep(s, item, cb);
            forall k :: k in r.carMarkerMap ==> CarConsistent(r, k)
  {
    var r := CarStep(s, item, cb);
    var code := item.vehicleCode;
    assert CarConsistent(s, code);
    assert CarConsistent(r, code);
    forall k | k in r.carMarkerMap && k != code
      ensures CarConsistent(r, k)
    {
      assert CarConsistent(s, k);
    }
  }

  /** The item's car either keeps Infinity or gets a rank above every rank handed out so far. */
  lemma CarStepRanks(s: HandlerState, item: CarItem, cb: Option<Callback>)
    requires Inv(s)
    ensures DistinctRanks(CarStep(s, item, cb).carMarkerMap)
  {
    var m := CarStep(s, item, cb).carMarkerMap;
    var code := item.vehicleCode;
    forall a, b | a in m && b in m && a != b
      ensures m[a].rank != m[b].rank
    {
      if a != code && b != code {
        assert s.carMarkerMap[a].rank != s.carMarkerMap[b].rank;
      } else if a == code {
        assert CarConsistent(s, b);
      } else {
        assert CarConsistent(s, a);
      }
    }
  }

  // ---------------------------------------------------------------------------
  // renderCarMarkers as a whole

  /**
   * The forEach over the cars: the car table gains exactly the codes of the
   * items; a car not among them is untouched; an active car stays active;
   * gid never decreases; stations, route and active car are not touched.
   */
  lemma RenderCarsFrame(s: HandlerState, items: seq<CarItem>, cb: Option<Callback>)
    requires SharedKeys(s)
    ensures var r := RenderCars(s, items, cb);
            && r.carMarkerMap.Keys == s.carMarkerMap.Keys + Codes(items)
            && (forall k :: k in s.carMarkerMap && k !in Codes(items) ==>
                  r.carMarkerMap[k] == s.carMarkerMap[k] && r.carInfoMarkerMap[k] == s.carInfoMarkerMap[k])
            && (forall k :: k in s.carMarkerMap && s.carMarkerMap[k].rank == Inf ==>
                  r.carMarkerMap[k].rank == Inf)
            && r.gid >= s.gid
            && r == s.(carMarkerMap := r.carMarkerMap, carInfoMarkerMap := r.carInfoMarkerMap,
                       gid := r.gid, log := r.log)
  {
    RenderCarsKeys(s, items, cb);
    RenderCarsUntouched(s, items, cb);
  }

  lemma {:induction false} RenderCarsKeys(s: HandlerState, items: seq<CarItem>, cb: Option<Callback>)
    requires SharedKeys(s)
    ensures var r := RenderCars(s, items, cb);
            && r.carMarkerMap.Keys == s.carMarkerMap.Keys + Codes(items)
            && r.gid >= s.gid
            && r == s.(carMarkerMap := r.carMarkerMap, carInfoMarkerMap := r.carInfoMarkerMap,
                       gid := r.gid, log := r.log)
  {
    if items != [] {
      var p := items[..|items| - 1];
      var last := items[|items| - 1];
      RenderCarsKeys(s, p, cb);
      CarStepFrame(RenderCars(s, p, cb), last, cb);
      assert Codes(items) == Codes(p) + {last.vehicleCode};
    }
  }

  lemma {:induction false} RenderCarsUntouched(s: HandlerState, items: seq<CarItem>, cb: Option<Callback>)
    requires SharedKeys(s)
    ensures var r := RenderCars(s, items, cb);
            && (forall k :: k in s.carMarkerMap && k !in Codes(items) ==>
                  k in r.carMarkerMap && k in r.carInfoMarkerMap &&
                  r.carMarkerMap[k] == s.carMarkerMap[k] && r.carInfoMarkerMap[k] == s.carInfoMarkerMap[k])
            && (forall k :: k in s.carMarkerMap && s.carMarkerMap[k].rank == Inf ==>
                  k in r.carMarkerMap && r.carMarkerMap[k].rank == Inf)
  {
    if items != [] {
      var p := items[..|items| - 1];
      var last := items[|items| - 1];
      RenderCarsUntouched(s, p, cb);
      CarStepFrame(RenderCars(s, p, cb), last, cb);
      assert Codes(items) == Codes(p) + {last.vehicleCode};
    }
  }

  /** One step of the forEach touches only the item's own car. */
  lemma CarStepFrame(s: HandlerState, item: CarItem, cb: Option<Callback>)
    requires SharedKeys(s)
    ensures var r := CarStep(s, item, cb);
            && r.carMarkerMap.Keys == s.carMarkerMap.Keys + {item.vehicleCode}
            && (forall k :: k in s.carMarkerMap && k != item.vehicleCode ==>
                  r.carMarkerMap[k] == s.carMarkerMap[k] && r.carInfoMarkerMap[k] == s.carInfoMarkerMap[k])
            && (forall k :: k in s.carMarkerMap && s.carMarkerMap[k].rank == Inf ==>
                  r.carMarkerMap[k].rank == Inf)
            && r.gid >= s.gid
            && r == s.(carMarkerMap := r.carMarkerMap, carInfoMarkerMap := r.carInfoMarkerMap,
                       gid := r.gid, log := r.log)
  {
    if item.vehicleCode in s.carMarkerMap {
      CarStepUpdates(s, item, cb);
    } else {
      CarStepAdds(s, item, cb);
    }
  }

  lemma {:induction false} RenderCarsInv(s: HandlerState, items: seq<CarItem>, cb: Option<Callback>)
    requires Inv(s)
    ensures Inv(RenderCars(s, items, cb))
  {
    if items != [] {
      var p := items[..|items| - 1];
      RenderCarsInv(s, p, cb);
      CarStepInv(RenderCars(s, p, cb), items[|items| - 1], cb);
    }
  }

  /** A code is among the filtered cars' codes exactly when some input car with both coordinates has it. */
  lemma FilteredCodes(data: seq<CarItem>, c: string)
    ensures c in Codes(FilterCars(data)) <==>
            exists x :: x in data && HasCoordinates(x) && x.vehicleCode == c
  {
    FilteredCodesSound(data, c);
    FilteredCodesComplete(data, c);
  }

  lemma FilteredCodesSound(data: seq<CarItem>, c: string)
    ensures c in Codes(FilterCars(data)) ==> exists x :: x in data && HasCoordinates(x) && x.vehicleCode == c
  {
    var items := FilterCars(data);
    if c in Codes(items) {
      var i :| 0 <= i < |items| && items[i].vehicleCode == c;
      assert items[i] in items;
    }
  }

  lemma FilteredCodesComplete(data: seq<CarItem>, c: string)
    ensures (exists x :: x in data && HasCoordinates(x) && x.vehicleCode == c) ==> c in Codes(FilterCars(data))
  {
    var items := FilterCars(data);
    if exists x :: x in data && HasCoordinates(x) && x.vehicleCode == c {
      var x :| x in data && HasCoordinates(x) && x.vehicleCode == c;
      assert x in items;
      var i :| 0 <= i < |items| && items[i] == x;
    }
  }

  /**
   * renderCarMarkers: its first call sets the style table of the filtered
   * cars; afterwards exactly the codes of the input items with both
   * coordinates present (and not '0.0') have been added or updated, each
   * with the position and properties of its last filtered occurrence, every
   * other car is untouched, and the invariant still holds.
   */
  lemma RenderCarMarkersEffect(s: HandlerState, data: seq<CarItem>, cb: Option<Callback>)
    requires Inv(s)
    ensures var r := RenderCarMarkersSpec(s, data, cb);
            && Inv(r)
            && r.carMarkerMap.Keys == s.carMarkerMap.Keys + Codes(FilterCars(data))
            && (forall i :: 0 <= i < |FilterCars(data)| && LastOccurrence(FilterCars(data), i) ==>
                  CarFrom(r, FilterCars(data)[i]))
            && (forall k :: k in s.carMarkerMap && k !in Codes(FilterCars(data)) ==>
                  r.carMarkerMap[k] == s.carMarkerMap[k] && r.carInfoMarkerMap[k] == s.carInfoMarkerMap[k])
            && |r.log| > |s.log| && r.log[|s.log|] == SetMarkerStyles(StyleTable(FilterCars(data)))
            && r.gid >= s.gid
  {
    RenderCarMarkersTables(s, data, cb);
    RenderCarMarkersLastWins(s, data, cb);
  }

  lemma RenderCarMarkersTables(s: HandlerState, data: seq<CarItem>, cb: Option<Callback>)
    requires Inv(s)
    ensures var r := RenderCarMarkersSpec(s, data, cb);
            && Inv(r)
            && r.carMarkerMap.Keys == s.carMarkerMap.Keys + Codes(FilterCars(data))
            && (forall k :: k in s.carMarkerMap && k !in Codes(FilterCars(data)) ==>
                  r.carMarkerMap[k] == s.carMarkerMap[k] && r.carInfoMarkerMap[k] == s.carInfoMarkerMap[k])
            && |r.log| > |s.log| && r.log[|s.log|] == SetMarkerStyles(StyleTable(FilterCars(data)))
            && r.gid >= s.gid
  {
    var items := FilterCars(data);
    var s' := s.(log := s.log + [SetMarkerStyles(StyleTable(items))]);
    InvCarsOnly(s, s');
    RenderCarsFrame(s', items, cb);
    RenderCarsInv(s', items, cb);
    RenderCarsLogExtends(s', items, cb);
    var r := RenderCars(s', items, cb);
    assert r.log[|s.log|] == r.log[..|s'.log|][|s.log|];
  }

  /** No car after position i has the code of items[i]: i is that code's last occurrence. */
  predicate LastOccurrence(items: seq<CarItem>, i: nat)
    requires i < |items|
  {
    forall j :: i < j < |items| ==> items[j].vehicleCode != items[i].vehicleCode
  }

  /** The car and the info window stored under item's code are at item's position, with item as properties. */
  predicate CarFrom(r: HandlerState, item: CarItem) {
    var code := item.vehicleCode;
    var position := GetLngLat(item.longitude, item.latitude);
    && code in r.carMarkerMap && code in r.carInfoMarkerMap
    && r.carMarkerMap[code].position == position && r.carMarkerMap[code].properties == item
    && r.carInfoMarkerMap[code].position == position
  }

  /** renderCarMarkers leaves every listed code as its last filtered occurrence put it. */
  lemma RenderCarMarkersLastWins(s: HandlerState, data: seq<CarItem>, cb: Option<Callback>)
    requires SharedKeys(s)
    ensures forall i :: 0 <= i < |FilterCars(data)| && LastOccurrence(FilterCars(data), i) ==>
              CarFrom(RenderCarMarkersSpec(s, data, cb), FilterCars(data)[i])
  {
    var items := FilterCars(data);
    var s' := s.(log := s.log + [SetMarkerStyles(StyleTable(items))]);
    assert RenderCarMarkersSpec(s, data, cb) == RenderCars(s', items, cb);
    forall i | 0 <= i < |items| && LastOccurrence(items, i)
      ensures CarFrom(RenderCars(s', items, cb), items[i])
    {
      RenderCarsLastWins(s', items, cb, i);
    }
  }

  /**
   * The forEach runs in input order: the car of a code ends with the
   * position and properties of the code's last occurrence among the items,
   * and so does its info window's position.
   */
  lemma {:induction false} RenderCarsLastWins(s: HandlerState, items: seq<CarItem>, cb: Option<Callback>, i: nat)
    requires SharedKeys(s)
    requires i < |items| && LastOccurrence(items, i)
    ensures CarFrom(RenderCars(s, items, cb), items[i])
    decreases |items|, 1
  {
    if i == |items| - 1 {
      RenderCarsLastItem(s, items, cb);
    } else {
      RenderCarsEarlierItem(s, items, cb, i);
    }
  }

  /** An item before the last: the prefix puts its car in place and the last step keeps it. */
  lemma {:induction false} RenderCarsEarlierItem(s: HandlerState, items: seq<CarItem>, cb: Option<Callback>, i: nat)
    requires SharedKeys(s)
    requires i < |items| - 1 && LastOccurrence(items, i)
    ensures CarFrom(RenderCars(s, items, cb), items[i])
    decreases |items|, 0
  {
    LastOccurrencePrefix(items, i);
    RenderCarsLastWins(s, items[..|items| - 1], cb, i);
    RenderCarsKeepsEarlier(s, items, cb, i);
  }

  lemma LastOccurrencePrefix(items: seq<CarItem>, i: nat)
    requires i < |items| - 1 && LastOccurrence(items, i)
    ensures items[..|items| - 1][i] == items[i]
    ensures LastOccurrence(items[..|items| - 1], i)
    ensures items[|items| - 1].vehicleCode != items[i].vehicleCode
  {
    var p := items[..|items| - 1];
    forall j | i < j < |p| ensures p[j].vehicleCode != p[i].vehicleCode {
      assert p[j] == items[j];
    }
  }

  /** The last item's step sets its car. */
  lemma RenderCarsLastItem(s: HandlerState, items: seq<CarItem>, cb: Option<Callback>)
    requires SharedKeys(s) && |items| > 0
    ensures CarFrom(RenderCars(s, items, cb), items[|items| - 1])
  {
    CarStepSets(RenderCars(s, items[..|items| - 1], cb), items[|items| - 1], cb);
  }

  /** The last item's step keeps a car of another code as the prefix left it. */
  lemma RenderCarsKeepsEarlier(s: HandlerState, items: seq<CarItem>, cb: Option<Callback>, i: nat)
    requires SharedKeys(s) && i < |items| - 1
    requires items[|items| - 1].vehicleCode != items[i].vehicleCode
    requires CarFrom(RenderCars(s, items[..|items| - 1], cb), items[i])
    ensures CarFrom(RenderCars(s, items, cb), items[i])
  {
    CarStepKeepsOther(RenderCars(s, items[..|items| - 1], cb), items[|items| - 1], cb, items[i]);
  }

  /** A step leaves its own item's car as the item says. */
  lemma CarStepSets(s: HandlerState, item: CarItem, cb: Option<Callback>)
    requires SharedKeys(s)
    ensures CarFrom(CarStep(s, item, cb), item)
  {
  }

  /** A step for another code leaves a car as it was. */
  lemma CarStepKeepsOther(s: HandlerState, item: CarItem, cb: Option<Callback>, other: CarItem)
    requires SharedKeys(s)
    requires CarFrom(s, other) && other.vehicleCode != item.vehicleCode
    ensures CarFrom(CarStep(s, item, cb), other)
  {
  }

  /** renderCarMarkers only appends to the log. */
  lemma {:induction false} RenderCarsLogExtends(s: HandlerState, items: seq<CarItem>, cb: Option<Callback>)
    requires SharedKeys(s)
    ensures |RenderCars(s, items, cb).log| >= |s.log|
    ensures RenderCars(s, items, cb).log[..|s.log|] == s.log
  {
    if items != [] {
      RenderCarsLogExtends(s, items[..|items| - 1], cb);
    }
  }

  // ---------------------------------------------------------------------------
  // renderStationMarkers

  /**
   * Stations are only ever inserted: both station tables gain exactly the
   * ids of the items, entries already present stay as they were, and nothing
   * outside the two station tables changes.
   */
  lemma {:induction false} RenderStationsFrame(s: HandlerState, items: seq<StationItem>)
    requires s.stationMarkerMap.Keys == s.circleMarkerMap.Keys
    ensures var r := RenderStations(s, items);
            && r.stationMarkerMap.Keys == s.stationMarkerMap.Keys + StationIds(items)
            && r.circleMarkerMap.Keys == r.stationMarkerMap.Keys
            && (forall k :: k in s.stationMarkerMap ==>
                  r.stationMarkerMap[k] == s.stationMarkerMap[k] && r.circleMarkerMap[k] == s.circleMarkerMap[k])
            && r == s.(stationMarkerMap := r.stationMarkerMap, circleMarkerMap := r.circleMarkerMap)
  {
    if items != [] {
      var p := items[..|items| - 1];
      RenderStationsFrame(s, p);
      StationStepFrame(RenderStations(s, p), items[|items| - 1]);
      assert StationIds(items) == StationIds(p) + {items[|items| - 1].stationId};
    }
  }

  /** One station: its id joins both tables unless present; nothing else changes. */
  lemma StationStepFrame(s: HandlerState, item: StationItem)
    requires s.stationMarkerMap.Keys == s.circleMarkerMap.Keys
    ensures var r := StationStep(s, item);
            && r.stationMarkerMap.Keys == s.stationMarkerMap.Keys + {item.stationId}
            && r.circleMarkerMap.Keys == r.stationMarkerMap.Keys
            && (forall k :: k in s.stationMarkerMap ==>
                  r.stationMarkerMap[k] == s.stationMarkerMap[k] && r.circleMarkerMap[k] == s.circleMarkerMap[k])
            && r == s.(stationMarkerMap := r.stationMarkerMap, circleMarkerMap := r.circleMarkerMap)
  {
    if item.stationId !in s.stationMarkerMap {
      var r := StationStep(s, item);
      assert r.stationMarkerMap.Keys == s.stationMarkerMap.Keys + {item.stationId};
      assert r.circleMarkerMap.Keys == s.circleMarkerMap.Keys + {item.stationId};
    }
  }

  lemma RenderStationsInv(s: HandlerState, items: seq<StationItem>)
    requires Inv(s)
    ensures Inv(RenderStations(s, items))
  {
    RenderStationsFrame(s, items);
    InvCarsOnly(s, RenderStations(s, items));
  }

  /**
   * A new station id gets its markers from its first occurrence in the
   * input: an info window of type 'station' showing the name, hidden, and a
   * circle, both at the station's position.
   */
  lemma RenderStationsFirstWins(s: HandlerState, items: seq<StationItem>, i: nat)
    requires s.stationMarkerMap.Keys == s.circleMarkerMap.Keys
    requires i < |items|
    requires items[i].stationId !in s.stationMarkerMap
    requires forall j :: 0 <= j < i ==> items[j].stationId != items[i].stationId
    ensures var r := RenderStations(s, items);
            var id := items[i].stationId;
            && id in r.stationMarkerMap && id in r.circleMarkerMap
            && r.stationMarkerMap[id] == NewStationMarker(items[i])
            && r.stationMarkerMap[id].position == GetLngLat(items[i].longitude, items[i].latitude)
            && r.stationMarkerMap[id].kind == "station"
            && r.stationMarkerMap[id].content == items[i].stationName
            && InfoVisibility(r.stationMarkerMap[id]) == DomOverlay.Hidden
            && r.circleMarkerMap[id] == CircleMarker(GetLngLat(items[i].longitude, items[i].latitude))
  {
    RenderStationsFirstEntry(s, items, i);
    var m := NewStationMarker(items[i]);
    assert RenderStations(s, items).stationMarkerMap[items[i].stationId] == m;
  }

  lemma {:induction false} RenderStationsFirstEntry(s: HandlerState, items: seq<StationItem>, i: nat)
    requires s.stationMarkerMap.Keys == s.circleMarkerMap.Keys
    requires i < |items|
    requires items[i].stationId !in s.stationMarkerMap
    requires forall j :: 0 <= j < i ==> items[j].stationId != items[i].stationId
    ensures var r := RenderStations(s, items);
            var id := items[i].stationId;
            && id in r.stationMarkerMap && id in r.circleMarkerMap
            && r.stationMarkerMap[id] == NewStationMarker(items[i])
            && r.circleMarkerMap[id] == CircleMarker(GetLngLat(items[i].longitude, items[i].latitude))
  {
    var n := |items|;
    var p := items[..n - 1];
    if i < n - 1 {
      RenderStationsFirstEntry(s, p, i);
      StationStepKeeps(RenderStations(s, p), items[n - 1], items[i].stationId);
    } else {
      StationInsertedLast(s, items);
    }
  }

  lemma StationStepKeeps(q: HandlerState, item: StationItem, id: string)
    requires id in q.stationMarkerMap && id in q.circleMarkerMap
    ensures id in StationStep(q, item).stationMarkerMap && id in StationStep(q, item).circleMarkerMap
    ensures StationStep(q, item).stationMarkerMap[id] == q.stationMarkerMap[id]
    ensures StationStep(q, item).circleMarkerMap[id] == q.circleMarkerMap[id]
  {
  }

  lemma StationInsertedLast(s: HandlerState, items: seq<StationItem>)
    requires s.stationMarkerMap.Keys == s.circleMarkerMap.Keys
    requires |items| > 0
    requires items[|items| - 1].stationId !in s.stationMarkerMap
    requires forall j :: 0 <= j < |items| - 1 ==> items[j].stationId != items[|items| - 1].stationId
    ensures var r := RenderStations(s, items);
            var item := items[|items| - 1];
            && item.stationId in r.stationMarkerMap && item.stationId in r.circleMarkerMap
            && r.stationMarkerMap[item.stationId] == NewStationMarker(item)
            && r.circleMarkerMap[item.stationId] == CircleMarker(GetLngLat(item.longitude, item.latitude))
  {
    var p := items[..|items| - 1];
    RenderStationsFrame(s, p);
    assert items[|items| - 1].stationId !in StationIds(p);
  }

  // ---------------------------------------------------------------------------
  // activeCurrCar and clicks

  /**
   * activeCurrCar throws (changing nothing) exactly when prevCarGeo names a
   * car that is no longer in the tables.
   */
  lemma ActiveCurrCarFails(s: HandlerState, code: string)
    requires Inv(s)
    ensures ActiveCurrCarSpec(s, code).None? <==>
            s.prevCarGeo.Some? && s.prevCarGeo.value !in s.carMarkerMap
  {
  }

  /** activeCurrCar, when it does not throw, keeps the invariant and the set of cars. */
  lemma ActiveCurrCarInv(s: HandlerState, code: string)
    requires Inv(s)
    requires s.prevCarGeo.None? || s.prevCarGeo.value in s.carMarkerMap
    ensures ActiveCurrCarSpec(s, code).Some?
    ensures Inv(ActiveCurrCarSpec(s, code).value)
    ensures ActiveCurrCarSpec(s, code).value.carMarkerMap.Keys == s.carMarkerMap.Keys
  {
    var d := if s.prevCarGeo.Some? then Demote(s, s.prevCarGeo.value) else s;
    ActivePreservesInvDemote(s);
    if code in d.carMarkerMap {
      PromoteInv(d, code);
    }
  }

  /**
   * activeCurrCar with a known code: the car takes the active style and
   * rank Infinity (its position and properties stay), its info window
   * shows, it becomes prevCarGeo, and the updated geometry is sent to the
   * car layer. With an unknown code no car is promoted.
   */
  lemma ActiveCurrCarPromotes(s: HandlerState, code: string)
    requires Inv(s)
    requires s.prevCarGeo.None? || s.prevCarGeo.value in s.carMarkerMap
    ensures ActiveCurrCarSpec(s, code).Some?
    ensures var r := ActiveCurrCarSpec(s, code).value;
            && (code in s.carMarkerMap ==>
                  && r.carMarkerMap[code]
                     == s.carMarkerMap[code].(styleId := "active-" + code, rank := Inf)
                  && InfoVisibility(r.carInfoMarkerMap[code]) == DomOverlay.Visible
                  && r.prevCarGeo == Some(code)
                  && r.log == s.log + [UpdateMarkers([r.carMarkerMap[code]])])
            && (code !in s.carMarkerMap ==> r.prevCarGeo == s.prevCarGeo && r.log == s.log)
  {
  }

  /**
   * The previous active car, if any and different from `code`, returns to
   * its default style with a rank above every rank handed out before, and
   * its info window hides; gid grows by one exactly when there was a
   * previous car.
   */
  lemma ActiveCurrCarDemotes(s: HandlerState, code: string)
    requires Inv(s)
    requires s.prevCarGeo.None? || s.prevCarGeo.value in s.carMarkerMap
    ensures ActiveCurrCarSpec(s, code).Some?
    ensures var r := ActiveCurrCarSpec(s, code).value;
            && (s.prevCarGeo.Some? && s.prevCarGeo.value != code ==>
                  var p := s.prevCarGeo.value;
                  && r.carMarkerMap[p].styleId == "default-" + p
                  && r.carMarkerMap[p].rank == Finite(s.gid + 1)
                  && (forall k :: k in s.carMarkerMap && s.carMarkerMap[k].rank.Finite? ==>
                        s.carMarkerMap[k].rank.n < s.gid + 1)
                  && InfoVisibility(r.carInfoMarkerMap[p]) == DomOverlay.Hidden)
            && r.gid == (if s.prevCarGeo.Some? then s.gid + 1 else s.gid)
  {
    if s.prevCarGeo.Some? {
      var p := s.prevCarGeo.value;
      var d := Demote(s, p);
      DemoteHides(s, p);
      RanksHandedOut(s);
      if code in d.carMarkerMap {
        PromoteKeepsOthers(d, code);
      }
    }
  }

  /** The demoted car's info window is hidden. */
  lemma DemoteHides(s: HandlerState, p: string)
    requires p in s.carMarkerMap && p in s.carInfoMarkerMap
    ensures InfoVisibility(Demote(s, p).carInfoMarkerMap[p]) == DomOverlay.Hidden
  {
    var info := s.carInfoMarkerMap[p];
    assert Demote(s, p).carInfoMarkerMap[p].domStyle
           == DomOverlay.SetVisibleStyle(info.domStyle, DomOverlay.Given(false));
  }

  /** Promoting a car leaves every other car, every other info window and gid alone. */
  lemma PromoteKeepsOthers(d: HandlerState, code: string)
    requires code in d.carMarkerMap && code in d.carInfoMarkerMap
    ensures var r := Promote(d, code);
            && r.gid == d.gid
            && (forall k :: k in d.carMarkerMap && k != code ==> r.carMarkerMap[k] == d.carMarkerMap[k])
            && (forall k :: k in d.carInfoMarkerMap && k != code ==> r.carInfoMarkerMap[k] == d.carInfoMarkerMap[k])
  {
  }

  /** activeCurrCar touches no car other than the current and the previous one. */
  lemma ActiveCurrCarFrame(s: HandlerState, code: string, k: string)
    requires Inv(s)
    requires s.prevCarGeo.None? || s.prevCarGeo.value in s.carMarkerMap
    requires k in s.carMarkerMap && k != code && s.prevCarGeo != Some(k)
    ensures ActiveCurrCarSpec(s, code).Some?
    ensures ActiveCurrCarSpec(s, code).value.carMarkerMap[k] == s.carMarkerMap[k]
    ensures ActiveCurrCarSpec(s, code).value.carInfoMarkerMap[k] == s.carInfoMarkerMap[k]
  {
  }

  /** After demoting the previous car, no car is drawn on top and the rest of the invariant holds. */
  lemma ActivePreservesInvDemote(s: HandlerState)
    requires Inv(s)
    requires s.prevCarGeo.None? || s.prevCarGeo.value in s.carMarkerMap
    ensures var d := if s.prevCarGeo.Some? then Demote(s, s.prevCarGeo.value) else s;
            && SharedKeys(d) && d.stationMarkerMap.Keys == d.circleMarkerMap.Keys
            && d.prevCarGeo == s.prevCarGeo
            && (forall k :: k in d.carMarkerMap ==> d.carMarkerMap[k].rank != Inf)
            && (forall k :: k in d.carMarkerMap ==> CarConsistent(d, k))
            && DistinctRanks(d.carMarkerMap)
  {
    if s.prevCarGeo.Some? {
      DemoteConsistent(s, s.prevCarGeo.value);
      DemoteRanks(s, s.prevCarGeo.value);
    } else {
      forall k | k in s.carMarkerMap
        ensures s.carMarkerMap[k].rank != Inf
      {
        assert CarConsistent(s, k);
      }
    }
  }

  /** Demoting the active car leaves no car on top; every car stays consistent. */
  lemma DemoteConsistent(s: HandlerState, p: string)
    requires Inv(s)
    requires s.prevCarGeo == Some(p) && p in s.carMarkerMap
    ensures var d := Demote(s, p);
            forall k :: k in d.carMarkerMap ==> d.carMarkerMap[k].rank != Inf && CarConsistent(d, k)
  {
    var d := Demote(s, p);
    forall k | k in d.carMarkerMap
      ensures d.carMarkerMap[k].rank != Inf && CarConsistent(d, k)
    {
      assert CarConsistent(s, k);
      if k == p {
        var info := s.carInfoMarkerMap[k];
        assert d.carInfoMarkerMap[k].domStyle
               == DomOverlay.SetVisibleStyle(info.domStyle, DomOverlay.Given(false));
        assert InfoVisibility(d.carInfoMarkerMap[k]) == DomOverlay.Hidden;
      }
    }
  }

  /** The demoted car's new rank gid + 1 is not held by any other car. */
  lemma DemoteRanks(s: HandlerState, p: string)
    requires Inv(s)
    requires p in s.carMarkerMap
    ensures DistinctRanks(Demote(s, p).carMarkerMap)
  {
    var m := Demote(s, p).carMarkerMap;
    forall a, b | a in m && b in m && a != b
      ensures m[a].rank != m[b].rank
    {
      assert CarConsistent(s, a) && CarConsistent(s, b);
      assert s.carMarkerMap[a].rank != s.carMarkerMap[b].rank;
    }
  }

  lemma PromoteInv(d: HandlerState, code: string)
    requires SharedKeys(d) && d.stationMarkerMap.Keys == d.circleMarkerMap.Keys
    requires forall k :: k in d.carMarkerMap ==> d.carMarkerMap[k].rank != Inf
    requires forall k :: k in d.carMarkerMap ==> CarConsistent(d, k)
    requires DistinctRanks(d.carMarkerMap)
    requires code in d.carMarkerMap
    ensures Inv(Promote(d, code))
  {
    PromoteConsistent(d, code);
    PromoteRanks(d, code);
  }

  lemma PromoteConsistent(d: HandlerState, code: string)
    requires SharedKeys(d)
    requires forall k :: k in d.carMarkerMap ==> d.carMarkerMap[k].rank != Inf
    requires forall k :: k in d.carMarkerMap ==> CarConsistent(d, k)
    requires code in d.carMarkerMap
    ensures var r := Promote(d, code);
            forall k :: k in r.carMarkerMap ==> CarConsistent(r, k)
  {
    var r := Promote(d, code);
    forall k | k in r.carMarkerMap
      ensures CarConsistent(r, k)
    {
      assert CarConsistent(d, k);
      if k == code {
        var info := d.carInfoMarkerMap[k];
        assert r.carInfoMarkerMap[k].domStyle
               == DomOverlay.SetVisibleStyle(info.domStyle, DomOverlay.Given(true));
        assert InfoVisibility(r.carInfoMarkerMap[k]) == DomOverlay.Visible;
      } else {
        assert d.carMarkerMap[k].rank != Inf;
      }
    }
  }

  /** The promoted car alone holds Infinity. */
  lemma PromoteRanks(d: HandlerState, code: string)
    requires SharedKeys(d)
    requires forall k :: k in d.carMarkerMap ==> d.carMarkerMap[k].rank != Inf
    requires DistinctRanks(d.carMarkerMap)
    requires code in d.carMarkerMap
    ensures DistinctRanks(Promote(d, code).carMarkerMap)
  {
    var m := Promote(d, code).carMarkerMap;
    forall a, b | a in m && b in m && a != b
      ensures m[a].rank != m[b].rank
    {
      if a != code && b != code {
        assert d.carMarkerMap[a].rank != d.carMarkerMap[b].rank;
      }
    }
  }

  /** In every state satisfying the invariant at most one car is drawn on top. */
  lemma AtMostOneActive(s: HandlerState, a: string, b: string)
    requires Inv(s)
    requires a in s.carMarkerMap && b in s.carMarkerMap
    requires s.carMarkerMap[a].rank == Inf && s.carMarkerMap[b].rank == Inf
    ensures a == b
  {
    assert CarConsistent(s, a) && CarConsistent(s, b);
  }

  /** A click on the car that is already active changes nothing. */
  lemma ClickOnActiveIsNoop(s: HandlerState, geometry: CarGeometry)
    requires Inv(s)
    requires s.prevCarGeo == Some(geometry.id)
    ensures ClickSpec(s, geometry) == Some(s)
  {
  }

  /**
   * A click on another known car activates it (and then calls its callback
   * with its properties); with the intended guard this holds also before
   * any car has been active.
   */
  lemma ClickActivates(s: HandlerState, geometry: CarGeometry)
    requires Inv(s)
    requires s.prevCarGeo.None? || s.prevCarGeo.value in s.carMarkerMap
    requires geometry.id in s.carMarkerMap && s.prevCarGeo != Some(geometry.id)
    ensures ClickSpec(s, geometry).Some?
    ensures var r := ClickSpec(s, geometry).value;
            && Inv(r)
            && r.prevCarGeo == Some(geometry.id)
            && r.carMarkerMap[geometry.id].rank == Inf
            && (geometry.cb.Some? ==>
                  r.log[|r.log| - 1] == InvokeClickCallback(geometry.cb.value, geometry.properties))
  {
    ActiveCurrCarInv(s, geometry.id);
    ActiveCurrCarPromotes(s, geometry.id);
    var t := ActiveCurrCarSpec(s, geometry.id).value;
    if geometry.cb.Some? {
      LogAppendKeepsInv(t, InvokeClickCallback(geometry.cb.value, geometry.properties));
    }
  }

  /**
   * activeCurrCar with a code that has no car still demotes the active car
   * but leaves prevCarGeo naming it, so a later click on that (now
   * default-styled) car passes the guard's "already active" test and is ignored.
   */
  lemma ClickAfterUnknownCodeIgnored(s: HandlerState, code: string)
    requires Inv(s)
    requires s.prevCarGeo.Some? && s.prevCarGeo.value in s.carMarkerMap
    requires code !in s.carMarkerMap
    ensures ActiveCurrCarSpec(s, code).Some?
    ensures var r := ActiveCurrCarSpec(s, code).value;
            var p := s.prevCarGeo.value;
            && r.prevCarGeo == Some(p)
            && r.carMarkerMap[p].rank != Inf
            && r.carMarkerMap[p].styleId == DefaultKey(p)
            && ClickSpec(r, r.carMarkerMap[p]) == Some(r)
  {
    assert CarConsistent(s, s.prevCarGeo.value);
  }

  /** Appending to the log does not touch the invariant. */
  lemma LogAppendKeepsInv(t: HandlerState, call: SdkCall)
    requires Inv(t)
    ensures Inv(t.(log := t.log + [call]))
  {
    InvCarsOnly(t, t.(log := t.log + [call]));
  }

  /** The invariant depends only on the car tables, gid, prevCarGeo and the keys of the station tables. */
  lemma InvCarsOnly(s: HandlerState, r: HandlerState)
    requires Inv(s)
    requires r.carMarkerMap == s.carMarkerMap && r.carInfoMarkerMap == s.carInfoMarkerMap
    requires r.gid == s.gid && r.prevCarGeo == s.prevCarGeo
    requires r.stationMarkerMap.Keys == r.circleMarkerMap.Keys
    ensures Inv(r)
  {
    forall k | k in r.carMarkerMap
      ensures CarConsistent(r, k)
    {
      assert CarConsistent(s, k);
    }
  }

  /** Line 84 as written: the first click after construction reads `.id` of null and throws. */
  lemma FirstClickThrowsAsWritten(id: string)
    ensures Init().prevCarGeo == None
    ensures ClickGuardAsWritten(Init().prevCarGeo, id) == None
    ensures ClickGuard(Init().prevCarGeo, id)
  {
  }

  /**
   * Line 307 as written: a point without a longitude makes getLngLat throw,
   * where the evident intent is to warn and return no position.
   */
  lemma MissingCoordinateThrowsAsWritten(latitude: string)
    ensures GetLngLatAsWritten("", latitude) == Threw
    ensures GetLngLat("", latitude) == None
  {
  }

  // ---------------------------------------------------------------------------
  // toggleStations

  /**
   * toggleStations: every station's info window gets the visibility
   * setVisible gives the argument; position, type and text stay; nothing
   * else changes.
   */
  lemma ToggleStationsEffect(s: HandlerState, visible: DomOverlay.VisibleArg)
    ensures var r := ToggleStationsSpec(s, visible);
            && r.stationMarkerMap.Keys == s.stationMarkerMap.Keys
            && (forall k :: k in r.stationMarkerMap ==>
                  && InfoVisibility(r.stationMarkerMap[k]) == DomOverlay.VisibilityFor(visible)
                  && r.stationMarkerMap[k].position == s.stationMarkerMap[k].position
                  && r.stationMarkerMap[k].kind == s.stationMarkerMap[k].kind
                  && r.stationMarkerMap[k].content == s.stationMarkerMap[k].content)
            && r == s.(stationMarkerMap := r.stationMarkerMap)
  {
  }

  /** A table whose every window has been toggled, one by one, is the table toggleStations gives. */
  lemma ToggledTable(s: HandlerState, m: map<string, InfoMarker>, visible: DomOverlay.VisibleArg)
    requires m.Keys == s.stationMarkerMap.Keys
    requires forall k :: k in m ==> m[k] == Toggled(s.stationMarkerMap[k], visible)
    ensures s.(stationMarkerMap := m) == ToggleStationsSpec(s, visible)
  {
    assert m == ToggledAll(s.stationMarkerMap, visible);
  }

  lemma ToggleStationsInv(s: HandlerState, visible: DomOverlay.VisibleArg)
    requires Inv(s)
    ensures Inv(ToggleStationsSpec(s, visible))
  {
    InvCarsOnly(s, ToggleStationsSpec(s, visible));
  }

  /** Calling toggleStations twice with the same argument is calling it once; in general the last call wins. */
  lemma ToggleStationsLastWins(s: HandlerState, v: DomOverlay.VisibleArg, w: DomOverlay.VisibleArg)
    ensures ToggleStationsSpec(ToggleStationsSpec(s, v), w) == ToggleStationsSpec(s, w)
  {
    ToggledAllLastWins(s.stationMarkerMap, v, w);
  }

  lemma ToggledAllLastWins(m: map<string, InfoMarker>, v: DomOverlay.VisibleArg, w: DomOverlay.VisibleArg)
    ensures ToggledAll(ToggledAll(m, v), w) == ToggledAll(m, w)
  {
    forall k | k in m
      ensures Toggled(Toggled(m[k], v), w) == Toggled(m[k], w)
    {
      ToggledTwice(m[k], v, w);
    }
  }

  lemma ToggledTwice(info: InfoMarker, v: DomOverlay.VisibleArg, w: DomOverlay.VisibleArg)
    ensures Toggled(Toggled(info, v), w) == Toggled(info, w)
  {
    DomOverlay.SetVisibleLastWins(info.domStyle, v, w);
  }

  // ---------------------------------------------------------------------------
  // renderPath

  /**
   * renderPath: with an empty route nothing changes; otherwise siteId and
   * paths are set, the route is added in blue when the layer is empty and
   * updated in deep blue otherwise, and the invariant is untouched.
   */
  lemma RenderPathEffect(s: HandlerState, data: seq<PathPoint>, siteId: string)
    ensures var r := RenderPathSpec(s, data, siteId);
            && (|data| == 0 ==> r == s)
            && (|data| > 0 ==>
                  && r.siteId == siteId
                  && r.paths == PathPositions(data)
                  && siteId in r.polylineLayer
                  && r.polylineLayer[siteId].paths == PathPositions(data)
                  && (|s.polylineLayer| == 0 ==>
                        r.polylineLayer == map[siteId := Polyline(siteId, "blue", r.paths)]
                        && r.log == s.log + [AddPolylines([Polyline(siteId, "blue", r.paths)])])
                  && (|s.polylineLayer| > 0 ==>
                        r.polylineLayer == s.polylineLayer[siteId := Polyline(siteId, "deeply-blue", r.paths)]
                        && r.log == s.log + [UpdatePolylines([Polyline(siteId, "deeply-blue", r.paths)])]))
            && r.carMarkerMap == s.carMarkerMap && r.carInfoMarkerMap == s.carInfoMarkerMap
            && r.stationMarkerMap == s.stationMarkerMap && r.circleMarkerMap == s.circleMarkerMap
            && r.gid == s.gid && r.prevCarGeo == s.prevCarGeo
            && (Inv(s) ==> Inv(r))
  {
    if Inv(s) {
      InvCarsOnly(s, RenderPathSpec(s, data, siteId));
    }
  }

  // ---------------------------------------------------------------------------
  // destroy

  /**
   * destroy: all four tables end empty, the polyline layer loses the current
   * site's route, gid, prevCarGeo, siteId and paths are kept, and the
   * invariant holds.
   */
  lemma DestroyEffect(s: HandlerState, infoOrder: seq<string>, stationOrder: seq<string>,
                      circleOrder: seq<string>)
    ensures var r := DestroySpec(s, infoOrder, stationOrder, circleOrder);
            && Inv(r)
            && r.carMarkerMap == map[] && r.carInfoMarkerMap == map[]
            && r.stationMarkerMap == map[] && r.circleMarkerMap == map[]
            && r.gid == s.gid && r.prevCarGeo == s.prevCarGeo
            && r.siteId == s.siteId && r.paths == s.paths
            && r.polylineLayer.Keys == s.polylineLayer.Keys - {s.siteId}
            && |r.log| >= |s.log| && r.log[..|s.log|] == s.log
  {
  }

  /** The calls destroy appends to the log, in order. */
  lemma DestroyCallsOrder(s: HandlerState, infoOrder: seq<string>, stationOrder: seq<string>,
                          circleOrder: seq<string>)
    ensures DestroySpec(s, infoOrder, stationOrder, circleOrder).log[|s.log|..]
            == DestroyCalls(CarInfoGroup, infoOrder) + DestroyCalls(StationGroup, stationOrder)
               + DestroyCalls(CircleGroup, circleOrder)
               + [RemoveMarkers(s.carMarkerMap.Keys), RemovePolyline(s.siteId)]
  {
    var calls := DestroyCalls(CarInfoGroup, infoOrder) + DestroyCalls(StationGroup, stationOrder)
                 + DestroyCalls(CircleGroup, circleOrder)
                 + [RemoveMarkers(s.carMarkerMap.Keys), RemovePolyline(s.siteId)];
    assert DestroySpec(s, infoOrder, stationOrder, circleOrder).log == s.log + calls;
    assert (s.log + calls)[|s.log|..] == calls;
  }

  /** A state that destroy's steps have produced is the state DestroySpec describes. */
  lemma DestroyedState(s: HandlerState, infoOrder: seq<string>, stationOrder: seq<string>,
                       circleOrder: seq<string>, t: HandlerState)
    requires t.carMarkerMap == map[] && t.carInfoMarkerMap == map[]
    requires t.stationMarkerMap == map[] && t.circleMarkerMap == map[]
    requires t.gid == s.gid && t.prevCarGeo == s.prevCarGeo && t.siteId == s.siteId && t.paths == s.paths
    requires t.polylineLayer == s.polylineLayer - {s.siteId}
    requires t.log == s.log + DestroyCalls(CarInfoGroup, infoOrder) + DestroyCalls(StationGroup, stationOrder)
                      + DestroyCalls(CircleGroup, circleOrder) + [RemoveMarkers(s.carMarkerMap.Keys)]
                      + [RemovePolyline(s.siteId)]
    ensures t == DestroySpec(s, infoOrder, stationOrder, circleOrder)
  {
  }

  /** With all four tables empty the invariant holds whatever the rest of the state. */
  lemma EmptyTablesInv(s: HandlerState)
    requires s.carMarkerMap == map[] && s.carInfoMarkerMap == map[]
    requires s.stationMarkerMap == map[] && s.circleMarkerMap == map[]
    ensures Inv(s)
  {
  }

  /**
   * The calls destroy makes: every overlay of the three tables is destroyed
   * (each once, as the count shows), then the car layer loses exactly the
   * keys of carMarkerMap and the polyline layer the current site's route.
   */
  lemma DestroyCallsEffect(s: HandlerState, infoOrder: seq<string>, stationOrder: seq<string>,
                           circleOrder: seq<string>)
    requires Enumerates(infoOrder, s.carInfoMarkerMap.Keys)
    requires Enumerates(stationOrder, s.stationMarkerMap.Keys)
    requires Enumerates(circleOrder, s.circleMarkerMap.Keys)
    ensures var calls := DestroySpec(s, infoOrder, stationOrder, circleOrder).log[|s.log|..];
            && (forall k :: DestroyOverlay(CarInfoGroup, k) in calls <==> k in s.carInfoMarkerMap)
            && (forall k :: DestroyOverlay(StationGroup, k) in calls <==> k in s.stationMarkerMap)
            && (forall k :: DestroyOverlay(CircleGroup, k) in calls <==> k in s.circleMarkerMap)
            && |calls| == |s.carInfoMarkerMap| + |s.stationMarkerMap| + |s.circleMarkerMap| + 2
            && calls[|calls| - 2] == RemoveMarkers(s.carMarkerMap.Keys)
            && calls[|calls| - 1] == RemovePolyline(s.siteId)
  {
    DestroyCallsCover(s, infoOrder, stationOrder, circleOrder);
    DestroyCallsCount(s, infoOrder, stationOrder, circleOrder);
  }

  lemma DestroyCallsCover(s: HandlerState, infoOrder: seq<string>, stationOrder: seq<string>,
                          circleOrder: seq<string>)
    requires Enumerates(infoOrder, s.carInfoMarkerMap.Keys)
    requires Enumerates(stationOrder, s.stationMarkerMap.Keys)
    requires Enumerates(circleOrder, s.circleMarkerMap.Keys)
    ensures var calls := DestroySpec(s, infoOrder, stationOrder, circleOrder).log[|s.log|..];
            && (forall k :: DestroyOverlay(CarInfoGroup, k) in calls <==> k in s.carInfoMarkerMap)
            && (forall k :: DestroyOverlay(StationGroup, k) in calls <==> k in s.stationMarkerMap)
            && (forall k :: DestroyOverlay(CircleGroup, k) in calls <==> k in s.circleMarkerMap)
  {
    var tail := [RemoveMarkers(s.carMarkerMap.Keys), RemovePolyline(s.siteId)];
    DestroyCallsOrder(s, infoOrder, stationOrder, circleOrder);
    DestroyedOverlays(DestroySpec(s, infoOrder, stationOrder, circleOrder).log[|s.log|..],
                      infoOrder, stationOrder, circleOrder, tail);
  }

  lemma DestroyCallsCount(s: HandlerState, infoOrder: seq<string>, stationOrder: seq<string>,
                          circleOrder: seq<string>)
    requires Enumerates(infoOrder, s.carInfoMarkerMap.Keys)
    requires Enumerates(stationOrder, s.stationMarkerMap.Keys)
    requires Enumerates(circleOrder, s.circleMarkerMap.Keys)
    ensures var calls := DestroySpec(s, infoOrder, stationOrder, circleOrder).log[|s.log|..];
            && |calls| == |s.carInfoMarkerMap| + |s.stationMarkerMap| + |s.circleMarkerMap| + 2
            && calls[|calls| - 2] == RemoveMarkers(s.carMarkerMap.Keys)
            && calls[|calls| - 1] == RemovePolyline(s.siteId)
  {
    DestroyCallsOrder(s, infoOrder, stationOrder, circleOrder);
    EnumeratesLength(infoOrder, s.carInfoMarkerMap.Keys);
    EnumeratesLength(stationOrder, s.stationMarkerMap.Keys);
    EnumeratesLength(circleOrder, s.circleMarkerMap.Keys);
  }

  /** Which overlays a run of destroy calls names, group by group. */
  lemma DestroyedOverlays(calls: seq<SdkCall>, infoOrder: seq<string>, stationOrder: seq<string>,
                          circleOrder: seq<string>, tail: seq<SdkCall>)
    requires calls == DestroyCalls(CarInfoGroup, infoOrder) + DestroyCalls(StationGroup, stationOrder)
                      + DestroyCalls(CircleGroup, circleOrder) + tail
    requires forall e :: e in tail ==> !e.DestroyOverlay?
    ensures forall k :: DestroyOverlay(CarInfoGroup, k) in calls <==> k in infoOrder
    ensures forall k :: DestroyOverlay(StationGroup, k) in calls <==> k in stationOrder
    ensures forall k :: DestroyOverlay(CircleGroup, k) in calls <==> k in circleOrder
  {
    forall g, k
      ensures DestroyOverlay(g, k) in calls <==>
              (g == CarInfoGroup && k in infoOrder) || (g == StationGroup && k in stationOrder) ||
              (g == CircleGroup && k in circleOrder)
    {
      DestroyCallsMember(CarInfoGroup, infoOrder, g, k);
      DestroyCallsMember(StationGroup, stationOrder, g, k);
      DestroyCallsMember(CircleGroup, circleOrder, g, k);
    }
  }

  lemma DestroyCallsMember(group: OverlayGroup, ks: seq<string>, g: OverlayGroup, k: string)
    ensures DestroyOverlay(g, k) in DestroyCalls(group, ks) <==> g == group && k in ks
  {
    var calls := DestroyCalls(group, ks);
    if k in ks && g == group {
      var i :| 0 <= i < |ks| && ks[i] == k;
      assert calls[i] == DestroyOverlay(group, k);
    }
  }

  /** Visiting one more key extends an enumeration. */
  lemma EnumeratesAppend(ks: seq<string>, keys: set<string>, key: string)
    requires Enumerates(ks, keys)
    requires key !in keys
    ensures Enumerates(ks + [key], keys + {key})
  {
  }

  /** One iteration of destroy's for..in loop over a table's keys. */
  lemma DestroyGroupStep(group: OverlayGroup, order: seq<string>, keys: set<string>, pending: set<string>,
                         key: string, log: seq<SdkCall>)
    requires pending <= keys && key in pending
    requires Enumerates(order, keys - pending)
    ensures Enumerates(order + [key], keys - (pending - {key}))
    ensures DestroyCalls(group, order + [key]) == DestroyCalls(group, order) + [DestroyOverlay(group, key)]
    ensures log + DestroyCalls(group, order) + [DestroyOverlay(group, key)]
            == log + DestroyCalls(group, order + [key])
  {
    assert (order + [key])[..|order|] == order;
    EnumeratesAppend(order, keys - pending, key);
    assert keys - (pending - {key}) == (keys - pending) + {key};
  }

  /** A list that names every element of a set exactly once is as long as the set is large. */
  lemma {:induction false} EnumeratesLength(ks: seq<string>, keys: set<string>)
    requires Enumerates(ks, keys)
    ensures |ks| == |keys|
  {
    if ks != [] {
      var last := ks[|ks| - 1];
      var p := ks[..|ks| - 1];
      assert forall k :: k in p <==> k in keys - {last} by {
        forall k | k in p
          ensures k != last
        {
          var i :| 0 <= i < |p| && p[i] == k;
          assert ks[i] == k;
        }
      }
      EnumeratesLength(p, keys - {last});
    } else {
      assert forall k :: k !in keys;
      assert keys == {};
    }
  }

  /**
   * destroy does not reset prevCarGeo: once a car was active, activeCurrCar
   * throws after destroy for every code until that car is rendered again.
   */
  lemma ActiveCurrCarAfterDestroy(s: HandlerState, infoOrder: seq<string>, stationOrder: seq<string>,
                                  circleOrder: seq<string>, code: string)
    requires Inv(s)
    requires s.prevCarGeo.Some?
    ensures ActiveCurrCarSpec(DestroySpec(s, infoOrder, stationOrder, circleOrder), code) == None
  {
  }

  /**
   * destroy removes only the current site's route: a route rendered for an
   * earlier site (updated in place by id, so kept beside the new one)
   * stays on the polyline layer.
   */
  lemma EarlierRouteSurvivesDestroy(s: HandlerState, first: seq<PathPoint>, firstSite: string,
                                    second: seq<PathPoint>, secondSite: string,
                                    infoOrder: seq<string>, stationOrder: seq<string>,
                                    circleOrder: seq<string>)
    requires |first| > 0 && |second| > 0 && firstSite != secondSite
    ensures var r := DestroySpec(RenderPathSpec(RenderPathSpec(s, first, firstSite), second, secondSite),
                                 infoOrder, stationOrder, circleOrder);
            && firstSite in r.polylineLayer
            && secondSite !in r.polylineLayer
  {
  }

  // ---------------------------------------------------------------------------
  // Any sequence of calls

  /** A call on the handler. */
  datatype Op =
    | RenderCarMarkersOp(data: seq<CarItem>, cb: Option<Callback>)
    | RenderPathOp(points: seq<PathPoint>, site: string)
    | RenderStationMarkersOp(stations: seq<StationItem>)
    | ActiveCurrCarOp(code: string)
    | ClickOp(geometry: CarGeometry)
    | ToggleStationsOp(visible: DomOverlay.VisibleArg)
    | DestroyOp

  lemma EnumerationExists(keys: set<string>)
    ensures exists ks :: Enumerates(ks, keys)
    decreases |keys|
  {
    if keys == {} {
      assert Enumerates([], keys);
    } else {
      var k :| k in keys;
      EnumerationExists(keys - {k});
      var ks :| Enumerates(ks, keys - {k});
      assert Enumerates(ks + [k], keys);
    }
  }

  ghost function SomeEnumeration(keys: set<string>): (ks: seq<string>)
    ensures Enumerates(ks, keys)
  {
    EnumerationExists(keys);
    var ks :| Enumerates(ks, keys);
    ks
  }

  /** The state after one call; a call that throws leaves the state as it was. */
  ghost function Step(s: HandlerState, op: Op): HandlerState
    requires Inv(s)
  {
    match op
    case RenderCarMarkersOp(data, cb) => RenderCarMarkersSpec(s, data, cb)
    case RenderPathOp(points, site) => RenderPathSpec(s, points, site)
    case RenderStationMarkersOp(stations) => RenderStations(s, stations)
    case ActiveCurrCarOp(code) => ActiveCurrCarSpec(s, code).GetOr(s)
    case ClickOp(geometry) => ClickSpec(s, geometry).GetOr(s)
    case ToggleStationsOp(visible) => ToggleStationsSpec(s, visible)
    case DestroyOp =>
      DestroySpec(s, SomeEnumeration(s.carInfoMarkerMap.Keys), SomeEnumeration(s.stationMarkerMap.Keys),
                  SomeEnumeration(s.circleMarkerMap.Keys))
  }

  /** Every call keeps the invariant and never lowers gid. */
  lemma StepInv(s: HandlerState, op: Op)
    requires Inv(s)
    ensures Inv(Step(s, op))
    ensures Step(s, op).gid >= s.gid
  {
    match op
    case RenderCarMarkersOp(data, cb) =>
      RenderCarMarkersEffect(s, data, cb);
    case RenderPathOp(points, site) =>
      RenderPathEffect(s, points, site);
    case RenderStationMarkersOp(stations) =>
      RenderStationsFrame(s, stations);
      RenderStationsInv(s, stations);
    case ActiveCurrCarOp(code) =>
      if s.prevCarGeo.None? || s.prevCarGeo.value in s.carMarkerMap {
        ActiveCurrCarInv(s, code);
        ActiveCurrCarDemotes(s, code);
      }
    case ClickOp(geometry) =>
      if ClickGuard(s.prevCarGeo, geometry.id) &&
         (s.prevCarGeo.None? || s.prevCarGeo.value in s.carMarkerMap) {
        ActiveCurrCarInv(s, geometry.id);
        ActiveCurrCarDemotes(s, geometry.id);
        var t := ActiveCurrCarSpec(s, geometry.id).value;
        if geometry.cb.Some? {
          LogAppendKeepsInv(t, InvokeClickCallback(geometry.cb.value, geometry.properties));
        }
      }
    case ToggleStationsOp(visible) =>
      ToggleStationsInv(s, visible);
    case DestroyOp =>
      DestroyEffect(s, SomeEnumeration(s.carInfoMarkerMap.Keys), SomeEnumeration(s.stationMarkerMap.Keys),
                    SomeEnumeration(s.circleMarkerMap.Keys));
  }

  /** The state after a sequence of calls on a freshly constructed handler. */
  ghost function Run(ops: seq<Op>): (s: HandlerState)
    ensures Inv(s)
    decreases |ops|
  {
    if ops == [] then Init()
    else
      var before := Run(ops[..|ops| - 1]);
      StepInv(before, ops[|ops| - 1]);
      Step(before, ops[|ops| - 1])
  }

  /**
   * Over any sequence of calls, gid never decreases, and in every state
   * reached at most one car is drawn on top, and it is the one prevCarGeo names.
   */
  lemma {:induction false} RunGidMonotone(ops: seq<Op>, n: nat)
    requires n <= |ops|
    ensures Run(ops[..n]).gid <= Run(ops).gid
    ensures forall k :: k in Run(ops).carMarkerMap && Run(ops).carMarkerMap[k].rank == Inf ==>
              Run(ops).prevCarGeo == Some(k)
    decreases |ops|
  {
    var s := Run(ops);
    forall k | k in s.carMarkerMap && s.carMarkerMap[k].rank == Inf
      ensures s.prevCarGeo == Some(k)
    {
      assert CarConsistent(s, k);
    }
    if n < |ops| {
      var p := ops[..|ops| - 1];
      assert ops[..n] == p[..n];
      RunGidMonotone(p, n);
      StepInv(Run(p), ops[|ops| - 1]);
    } else {
      assert ops[..n] == ops;
    }
  }
}
