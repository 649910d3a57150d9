/**
 * The map screen's selection state machine: the loaded stores, the cache of
 * routes keyed by store, the selected (store, route) pair, and the abstract
 * view state the controller drives (which marker name is highlighted, the
 * drawn route line, whether the callout pager is hidden, the map's centre
 * and the feature of the current callout page).
 */
module StoreLocator {
  import opened Wrappers
  import opened FeatureLookup

  /** A cached pair: a store and the route to it (possibly empty). */
  datatype Entry = Entry(feature: Feature, route: seq<Coordinate>)

  /** The route line layer: whether it is visible and the path it last drew. */
  datatype RouteLine = RouteLine(visible: bool, path: seq<Coordinate>)

  /** The device orientation; `Flat` stands for face-up, face-down and unknown. */
  datatype Orientation = Portrait | Landscape | Flat

  /** What the directions service hands to a request's completion. */
  datatype DirectionsResult = Failure | Success(routes: seq<seq<Coordinate>>)

  /** `featuresWithRoute[key]`. */
  function Lookup(cache: map<string, Entry>, key: string): Option<Entry> {
    if key in cache then Some(cache[key]) else None
  }

  /** Every cache entry is filed under the key of the store it holds. */
  ghost predicate CacheConsistent(cache: map<string, Entry>) {
    forall k :: k in cache ==> Key(cache[k].feature) == k
  }

  /**
   * The cache after writing (f, []) for each feature of `fs` in order,
   * the empty route being what the route request returns synchronously.
   */
  function Populated(cache: map<string, Entry>, fs: seq<Feature>): (r: map<string, Entry>)
    ensures cache.Keys <= r.Keys
    ensures fs != [] ==> Key(fs[|fs| - 1]) in r && r[Key(fs[|fs| - 1])] == Entry(fs[|fs| - 1], [])
    decreases |fs|
  {
    if fs == [] then cache
    else
      var last := fs[|fs| - 1];
      Populated(cache, fs[..|fs| - 1])[Key(last) := Entry(last, [])]
  }

  /** `i` is the largest position in `fs` whose feature has key `key`. */
  predicate IsLastKeyIndex(fs: seq<Feature>, key: string, i: int) {
    0 <= i < |fs| && Key(fs[i]) == key && forall j :: i < j < |fs| ==> Key(fs[j]) != key
  }

  /** Populating adds exactly the keys of `fs` to the cache's keys. */
  lemma {:induction false} PopulatedKeys(cache: map<string, Entry>, fs: seq<Feature>, k: string)
    ensures k in Populated(cache, fs) <==> k in cache || exists i :: 0 <= i < |fs| && Key(fs[i]) == k
    decreases |fs|
  {
    if fs != [] {
      var n := |fs| - 1;
      var init := fs[..n];
      PopulatedKeys(cache, init, k);
      assert Populated(cache, fs) == Populated(cache, init)[Key(fs[n]) := Entry(fs[n], [])];
      if exists i :: 0 <= i < |fs| && Key(fs[i]) == k {
        var i :| 0 <= i < |fs| && Key(fs[i]) == k;
        if i < n {
          assert init[i] == fs[i];
        }
      }
      if exists i :: 0 <= i < n && Key(init[i]) == k {
        var i :| 0 <= i < n && Key(init[i]) == k;
        assert fs[i] == init[i];
      }
    }
  }

  /** The entry under a key of `fs` is the last feature with that key, with an empty route. */
  lemma {:induction false} PopulatedLastWins(cache: map<string, Entry>, fs: seq<Feature>, k: string, i: nat)
    requires IsLastKeyIndex(fs, k, i)
    ensures k in Populated(cache, fs) && Populated(cache, fs)[k] == Entry(fs[i], [])
    decreases |fs|
  {
    var n := |fs| - 1;
    var init := fs[..n];
    assert Populated(cache, fs) == Populated(cache, init)[Key(fs[n]) := Entry(fs[n], [])];
    if i < n {
      assert IsLastKeyIndex(init, k, i);
      PopulatedLastWins(cache, init, k, i);
    }
  }

  /** A key that no feature of `fs` has keeps its old entry. */
  lemma {:induction false} PopulatedKeepsOthers(cache: map<string, Entry>, fs: seq<Feature>, k: string)
    requires k in cache
    requires forall i :: 0 <= i < |fs| ==> Key(fs[i]) != k
    ensures k in Populated(cache, fs) && Populated(cache, fs)[k] == cache[k]
    decreases |fs|
  {
    if fs != [] {
      var n := |fs| - 1;
      var init := fs[..n];
      assert forall i :: 0 <= i < n ==> init[i] == fs[i];
      PopulatedKeepsOthers(cache, init, k);
      assert Populated(cache, fs) == Populated(cache, init)[Key(fs[n]) := Entry(fs[n], [])];
    }
  }

  /** After populating, every feature of `fs` has an entry with an empty route, whatever was cached before. */
  lemma {:induction false} PopulatedRoutesEmpty(cache: map<string, Entry>, fs: seq<Feature>, i: nat)
    requires i < |fs|
    ensures Key(fs[i]) in Populated(cache, fs)
    ensures Populated(cache, fs)[Key(fs[i])].route == []
    ensures Key(Populated(cache, fs)[Key(fs[i])].feature) == Key(fs[i])
  {
    var k := Key(fs[i]);
    var last := LastKeyIndexFrom(fs, k, i);
    PopulatedLastWins(cache, fs, k, last);
  }

  /** Some position at or after `i` is the last one with key `k`. */
  lemma {:induction false} LastKeyIndexFrom(fs: seq<Feature>, k: string, i: nat) returns (last: nat)
    requires i < |fs| && Key(fs[i]) == k
    ensures IsLastKeyIndex(fs, k, last)
    decreases |fs| - i
  {
    if exists j :: i < j < |fs| && Key(fs[j]) == k {
      var j :| i < j < |fs| && Key(fs[j]) == k;
      last := LastKeyIndexFrom(fs, k, j);
    } else {
      last := i;
    }
  }

  /** Populating keeps every entry filed under its own store's key. */
  lemma {:induction false} PopulatedConsistent(cache: map<string, Entry>, fs: seq<Feature>)
    requires CacheConsistent(cache)
    ensures CacheConsistent(Populated(cache, fs))
    decreases |fs|
  {
    if fs != [] {
      PopulatedConsistent(cache, fs[..|fs| - 1]);
    }
  }

  /**
   * The cache after a route request's completion for `destination`: the
   * first route replaces the destination's entry; an error or an empty
   * list of routes leaves the cache as it was.
   */
  function Completed(cache: map<string, Entry>, destination: Feature, result: DirectionsResult): (r: map<string, Entry>)
    ensures result.Failure? || result.routes == [] ==> r == cache
    ensures result.Success? && result.routes != [] ==>
      r.Keys == cache.Keys + {Key(destination)} &&
      r[Key(destination)] == Entry(destination, result.routes[0]) &&
      forall k :: k in cache && k != Key(destination) ==> r[k] == cache[k]
  {
    match result
    case Failure => cache
    case Success(routes) =>
      if routes == [] then cache
      else cache[Key(destination) := Entry(destination, routes[0])]
  }

  /** Completions for stores with different keys commute: their arrival order does not matter. */
  lemma CompletionsCommute(cache: map<string, Entry>, a: Feature, ra: DirectionsResult, b: Feature, rb: DirectionsResult)
    requires Key(a) != Key(b)
    ensures Completed(Completed(cache, a, ra), b, rb) == Completed(Completed(cache, b, rb), a, ra)
  {
  }

  /** Of two successful completions for the same key, the one that arrives last is what the cache holds. */
  lemma LastCompletionWins(cache: map<string, Entry>, a: Feature, ra: DirectionsResult, b: Feature, rb: DirectionsResult)
    requires Key(a) == Key(b)
    requires rb.Success? && rb.routes != []
    ensures Completed(Completed(cache, a, ra), b, rb) == Completed(cache, b, rb)
  {
  }

  /** The route line after `drawRouteLine(route)`: an empty route leaves the line as it was. */
  function Drawn(line: RouteLine, route: seq<Coordinate>): (r: RouteLine)
    ensures r == line || r == RouteLine(true, route)
    ensures |route| > 0 ==> r.visible && r.path == route
    ensures |route| == 0 ==> r == line
  {
    if |route| > 0 then RouteLine(true, route) else line
  }

  /** The route line after the items of `hits` are selected one after another, each drawing its cached route. */
  function DrawnAfter(line: RouteLine, cache: map<string, Entry>, hits: seq<Feature>): (r: RouteLine)
    ensures r == line || r.visible
    ensures line.visible ==> r.visible
    decreases |hits|
  {
    if hits == [] then line
    else
      var last := hits[|hits| - 1];
      var before := DrawnAfter(line, cache, hits[..|hits| - 1]);
      if Key(last) in cache then Drawn(before, cache[Key(last)].route) else before
  }

  /** The store `f` has a non-empty cached route. */
  predicate Routed(cache: map<string, Entry>, f: Feature) {
    Key(f) in cache && |cache[Key(f)].route| > 0
  }

  /** `j` is the last position of `hits` whose store has a non-empty cached route. */
  predicate IsLastRouted(cache: map<string, Entry>, hits: seq<Feature>, j: int) {
    0 <= j < |hits| && Routed(cache, hits[j]) && forall k :: j < k < |hits| ==> !Routed(cache, hits[k])
  }

  /**
   * Selecting several stores in turn shows the route of the last one that
   * has a non-empty route; when none has, the line is left as it was.
   */
  lemma {:induction false} DrawnAfterShowsLastRouted(line: RouteLine, cache: map<string, Entry>, hits: seq<Feature>)
    ensures (forall j :: 0 <= j < |hits| ==> !Routed(cache, hits[j])) ==> DrawnAfter(line, cache, hits) == line
    ensures forall j :: IsLastRouted(cache, hits, j) ==>
      DrawnAfter(line, cache, hits) == RouteLine(true, cache[Key(hits[j])].route)
    decreases |hits|
  {
    if hits != [] {
      var n := |hits| - 1;
      var init := hits[..n];
      DrawnAfterShowsLastRouted(line, cache, init);
      assert forall i :: 0 <= i < n ==> init[i] == hits[i];
      if !Routed(cache, hits[n]) {
        forall j | IsLastRouted(cache, hits, j)
          ensures IsLastRouted(cache, init, j)
        {
        }
      }
    }
  }

  /**
   * A forward page request followed by a backward one returns to the
   * starting store: the forward request selects the cache entry of the next
   * store, and the backward request pages back from that entry's store. It
   * holds when keys are strings and distinct, and the cache holds only
   * loaded stores, each under its own key.
   */
  lemma AfterThenBefore(fs: seq<Feature>, cache: map<string, Entry>, f: Feature)
    requires AllKeysString(fs) && DistinctKeys(fs) && f in fs
    requires CacheConsistent(cache) && forall k :: k in cache ==> cache[k].feature in fs
    ensures CanLocate(fs, f)
    ensures var next := fs[NextIndex(IndexOf(fs, f), |fs|)];
      Key(next) in cache ==>
        CanLocate(fs, cache[Key(next)].feature) &&
        fs[PrevIndex(IndexOf(fs, cache[Key(next)].feature), |fs|)] == f
  {
  }

  /**
   * The map screen's controller. Fields mirror the controller's stored
   * properties; the view fields stand for the map style, the page view
   * controller and the map camera it mutates.
   */
  class ThemeViewController {
    var features: seq<Feature>
    var featuresWithRoute: map<string, Entry>
    var selectedFeature: Option<Entry>
    var userLocation: Coordinate
    /** Destinations of route requests whose completion has not yet arrived, in issue order. */
    var pendingRoutes: seq<Feature>
    /** Whether the "store-locations" symbol layer exists in the map style. */
    var storeLayerAdded: bool
    /** The name the marker style selects, or None for "all unselected". */
    var highlighted: Option<string>
    var routeLine: RouteLine
    var pagerHidden: bool
    var mapCenter: Coordinate
    /** The store shown by the most recently built callout page. */
    var itemView: Option<Feature>

    /**
     * Cache entries are filed under their store's key, and stores, cache
     * entries and route requests exist only once the store layer was added.
     */
    ghost predicate Valid()
      reads this
    {
      && CacheConsistent(featuresWithRoute)
      && (features != [] || featuresWithRoute != map[] || pendingRoutes != [] ==> storeLayerAdded)
    }

    /**
     * Cache entries, outstanding route requests and the selection all hold
     * stores of the loaded collection. Loading a collection once, into an
     * empty controller, establishes it, and every other operation keeps it.
     */
    ghost predicate Loaded()
      reads this
    {
      && (forall k :: k in featuresWithRoute ==> featuresWithRoute[k].feature in features)
      && (forall j :: 0 <= j < |pendingRoutes| ==> pendingRoutes[j] in features)
      && (selectedFeature.Some? ==> selectedFeature.value.feature in features)
    }

    /**
     * With every loaded store carrying a string key, a loaded controller's
     * selection can always be located, and each cached store has a string key.
     */
    lemma SelectionLocatable()
      requires Loaded() && AllKeysString(features)
      ensures selectedFeature.Some? ==> CanLocate(features, selectedFeature.value.feature)
      ensures forall k :: k in featuresWithRoute ==> HasStringKey(featuresWithRoute[k].feature)
    {
    }

    /** The controller as viewDidLoad leaves it: nothing loaded, the pager hidden. */
    constructor (center: Coordinate)
      ensures Valid()
      ensures features == [] && featuresWithRoute == map[] && selectedFeature == None
      ensures userLocation == Coordinate(0.0, 0.0) && pendingRoutes == []
      ensures !storeLayerAdded && highlighted == None && routeLine == RouteLine(false, [])
      ensures pagerHidden && mapCenter == center && itemView == None
    {
      features := [];
      featuresWithRoute := map[];
      selectedFeature := None;
      userLocation := Coordinate(0.0, 0.0);
      pendingRoutes := [];
      storeLayerAdded := false;
      highlighted := None;
      routeLine := RouteLine(false, []);
      pagerHidden := true;
      mapCenter := center;
      itemView := None;
    }

    /**
     * Issues a route request to `destination` and returns the route known
     * so far, which is always empty: the completion arrives later, as
     * CompleteRoute.
     */
    method GetRoute(destination: Feature) returns (route: seq<Coordinate>)
      requires Valid() && storeLayerAdded
      modifies this`pendingRoutes
      ensures Valid()
      ensures old(Loaded()) && destination in features ==> Loaded()
      ensures route == []
      ensures pendingRoutes == old(pendingRoutes) + [destination]
    {
      route := [];
      pendingRoutes := pendingRoutes + [destination];
    }

    /** The completion of the `i`-th outstanding route request, in any order. */
    method CompleteRoute(i: nat, result: DirectionsResult)
      requires Valid()
      requires i < |pendingRoutes|
      modifies this`featuresWithRoute, this`pendingRoutes
      ensures Valid()
      ensures old(Loaded()) ==> Loaded()
      ensures pendingRoutes == old(pendingRoutes[..i] + pendingRoutes[i + 1..])
      ensures featuresWithRoute == Completed(old(featuresWithRoute), old(pendingRoutes[i]), result)
    {
      var destination := pendingRoutes[i];
      pendingRoutes := pendingRoutes[..i] + pendingRoutes[i + 1..];
      if result.Success? && result.routes != [] {
        featuresWithRoute := featuresWithRoute[Key(destination) := Entry(destination, result.routes[0])];
      }
    }

    /**
     * With a valid user location, requests a route to every store and files
     * each store with the empty route under its key; otherwise does nothing.
     */
    method PopulateFeaturesWithRoutes()
      requires Valid()
      modifies this`featuresWithRoute, this`pendingRoutes
      ensures Valid()
      ensures old(Loaded()) ==> Loaded()
      ensures IsValidCoordinate(userLocation) ==>
        featuresWithRoute == Populated(old(featuresWithRoute), features) &&
        pendingRoutes == old(pendingRoutes) + features
      ensures !IsValidCoordinate(userLocation) ==>
        featuresWithRoute == old(featuresWithRoute) && pendingRoutes == old(pendingRoutes)
    {
      if IsValidCoordinate(userLocation) {
        var i := 0;
        while i < |features|
          invariant 0 <= i <= |features|
          invariant featuresWithRoute == Populated(old(featuresWithRoute), features[..i])
          invariant pendingRoutes == old(pendingRoutes) + features[..i]
          invariant Valid()
          invariant old(Loaded()) ==> Loaded()
        {
          var point := features[i];
          var routeCoordinates := GetRoute(point);
          featuresWithRoute := featuresWithRoute[Key(point) := Entry(point, routeCoordinates)];
          assert features[..i + 1][..i] == features[..i];
          i := i + 1;
        }
        assert features[..i] == features;
      }
    }

    /** Takes a parsed store collection: adds the store layer, all markers unselected, and populates the cache. */
    method DrawPointData(fs: seq<Feature>)
      requires Valid()
      modifies this`features, this`storeLayerAdded, this`highlighted, this`featuresWithRoute, this`pendingRoutes
      ensures Valid()
      ensures old(Loaded() && features == []) ==> Loaded()
      ensures features == fs && storeLayerAdded && highlighted == None
      ensures IsValidCoordinate(userLocation) ==>
        featuresWithRoute == Populated(old(featuresWithRoute), fs) &&
        pendingRoutes == old(pendingRoutes) + fs
      ensures !IsValidCoordinate(userLocation) ==>
        featuresWithRoute == old(featuresWithRoute) && pendingRoutes == old(pendingRoutes)
    {
      storeLayerAdded := true;
      highlighted := None;
      features := fs;
      PopulateFeaturesWithRoutes();
    }

    /** A location update moves the user dot and the camera and, when valid, repopulates the cache. */
    method DidUpdateUserLocation(location: Option<Coordinate>)
      requires Valid()
      modifies this`userLocation, this`mapCenter, this`featuresWithRoute, this`pendingRoutes
      ensures Valid()
      ensures old(Loaded()) ==> Loaded()
      ensures location.None? ==>
        userLocation == old(userLocation) && mapCenter == old(mapCenter) &&
        featuresWithRoute == old(featuresWithRoute) && pendingRoutes == old(pendingRoutes)
      ensures location.Some? ==> userLocation == location.value && mapCenter == location.value
      ensures location.Some? && IsValidCoordinate(location.value) ==>
        featuresWithRoute == Populated(old(featuresWithRoute), features) &&
        pendingRoutes == old(pendingRoutes) + features
      ensures location.Some? && !IsValidCoordinate(location.value) ==>
        featuresWithRoute == old(featuresWithRoute) && pendingRoutes == old(pendingRoutes)
    {
      if location.Some? {
        userLocation := location.value;
        mapCenter := location.value;
        if IsValidCoordinate(userLocation) {
          PopulateFeaturesWithRoutes();
        }
      }
    }

    /**
     * Restyles the markers by `f`'s name: afterwards a store's marker is
     * selected exactly when its name equals f's; a nameless `f` unselects all.
     */
    method ChangeItemColor(f: Feature)
      requires storeLayerAdded
      modifies this`highlighted
      ensures highlighted == NameOf(f)
      ensures forall g :: MarkerSelected(highlighted, g) <==> NameOf(f).Some? && NameOf(g) == NameOf(f)
    {
      highlighted := NameOf(f);
    }

    /** Shows `route` on the route line; an empty route changes nothing. */
    method DrawRouteLine(route: seq<Coordinate>)
      modifies this`routeLine
      ensures |route| > 0 ==> routeLine == RouteLine(true, route)
      ensures |route| == 0 ==> routeLine == old(routeLine)
    {
      if |route| > 0 {
        routeLine := RouteLine(true, route);
      }
    }

    /**
     * Centres on `f`, selects the cache entry under f's key (none when
     * uncached), builds its callout page and draws the cached route.
     */
    method GenerateItemPages(f: Feature)
      modifies this`mapCenter, this`selectedFeature, this`itemView, this`routeLine
      ensures old(Loaded()) ==> Loaded()
      ensures mapCenter == f.coordinate
      ensures selectedFeature == Lookup(featuresWithRoute, Key(f))
      ensures itemView == Some(f)
      ensures Key(f) in featuresWithRoute ==> routeLine == Drawn(old(routeLine), featuresWithRoute[Key(f)].route)
      ensures Key(f) !in featuresWithRoute ==> routeLine == old(routeLine)
    {
      mapCenter := f.coordinate;
      selectedFeature := Lookup(featuresWithRoute, Key(f));
      itemView := Some(f);
      if selectedFeature.Some? {
        DrawRouteLine(selectedFeature.value.route);
      }
    }

    /** Unselects every marker, hides the route line and hides the pager; the selection is kept. */
    method HideCallout()
      requires storeLayerAdded
      modifies this`highlighted, this`routeLine, this`pagerHidden
      ensures highlighted == None
      ensures routeLine == old(routeLine).(visible := false)
      ensures pagerHidden
    {
      ChangeItemColor(EmptyFeature);
      routeLine := routeLine.(visible := false);
      pagerHidden := true;
    }

    /**
     * A tap on the map. When the gesture has ended: if stores lie under the
     * tap and the device is not in landscape, each is selected in turn and
     * the pager is shown; otherwise the callout is hidden, leaving
     * selectedFeature as it was.
     */
    method HandleItemTap(ended: bool, hits: seq<Feature>, orientation: Orientation)
      requires ended ==> storeLayerAdded
      modifies this`highlighted, this`routeLine, this`pagerHidden, this`mapCenter, this`selectedFeature, this`itemView
      ensures old(Loaded()) ==> Loaded()
      ensures !ended ==>
        highlighted == old(highlighted) && routeLine == old(routeLine) && pagerHidden == old(pagerHidden) &&
        mapCenter == old(mapCenter) && selectedFeature == old(selectedFeature) && itemView == old(itemView)
      ensures ended && hits != [] && orientation != Landscape ==>
        var last := hits[|hits| - 1];
        highlighted == NameOf(last) &&
        selectedFeature == Lookup(featuresWithRoute, Key(last)) &&
        mapCenter == last.coordinate && itemView == Some(last) &&
        routeLine == DrawnAfter(old(routeLine), featuresWithRoute, hits) &&
        !pagerHidden
      ensures ended && (hits == [] || orientation == Landscape) ==>
        highlighted == None && routeLine == old(routeLine).(visible := false) && pagerHidden &&
        mapCenter == old(mapCenter) && selectedFeature == old(selectedFeature) && itemView == old(itemView)
    {
      if ended {
        if |hits| > 0 && orientation != Landscape {
          var i := 0;
          while i < |hits|
            invariant 0 <= i <= |hits|
            invariant i == 0 ==>
              highlighted == old(highlighted) && pagerHidden == old(pagerHidden) && mapCenter == old(mapCenter) &&
              selectedFeature == old(selectedFeature) && itemView == old(itemView)
            invariant i > 0 ==>
              highlighted == NameOf(hits[i - 1]) && !pagerHidden && mapCenter == hits[i - 1].coordinate &&
              selectedFeature == Lookup(featuresWithRoute, Key(hits[i - 1])) && itemView == Some(hits[i - 1])
            invariant routeLine == DrawnAfter(old(routeLine), featuresWithRoute, hits[..i])
            invariant old(Loaded()) ==> Loaded()
          {
            ChangeItemColor(hits[i]);
            GenerateItemPages(hits[i]);
            pagerHidden := false;
            assert hits[..i + 1][..i] == hits[..i];
            i := i + 1;
          }
          assert hits[..i] == hits;
        } else {
          HideCallout();
        }
      }
    }

    /** Rotation: in landscape the callout is hidden (the selection is kept); other orientations change nothing. */
    method ViewWillTransition(orientation: Orientation)
      requires orientation == Landscape ==> storeLayerAdded
      modifies this`highlighted, this`routeLine, this`pagerHidden
      ensures orientation == Landscape ==>
        highlighted == None && routeLine == old(routeLine).(visible := false) && pagerHidden
      ensures orientation != Landscape ==>
        highlighted == old(highlighted) && routeLine == old(routeLine) && pagerHidden == old(pagerHidden)
    {
      if orientation == Landscape {
        HideCallout();
      }
    }

    /** A swipe begins towards the page of `pending`: the selection becomes that store's cache entry, or none. */
    method WillTransitionTo(pending: Option<Feature>)
      modifies this`selectedFeature
      ensures old(Loaded()) ==> Loaded()
      ensures pending.Some? ==> selectedFeature == Lookup(featuresWithRoute, Key(pending.value))
      ensures pending.None? ==> selectedFeature == old(selectedFeature)
    {
      if pending.Some? {
        selectedFeature := Lookup(featuresWithRoute, Key(pending.value));
      }
    }

    /**
     * A swipe has ended on the page of `current`: when that store's key is
     * cached, its entry becomes the selection, the camera centres on it, its
     * route is drawn and its name highlighted; otherwise nothing changes.
     */
    method DidFinishAnimating(current: Option<Feature>)
      requires Valid()
      modifies this`selectedFeature, this`mapCenter, this`routeLine, this`highlighted
      ensures old(Loaded()) ==> Loaded()
      ensures current.Some? && Key(current.value) in featuresWithRoute ==>
        var e := featuresWithRoute[Key(current.value)];
        Key(e.feature) == Key(current.value) &&
        selectedFeature == Some(e) && mapCenter == e.feature.coordinate &&
        routeLine == Drawn(old(routeLine), e.route) && highlighted == NameOf(e.feature)
      ensures current.None? || Key(current.value) !in featuresWithRoute ==>
        selectedFeature == old(selectedFeature) && mapCenter == old(mapCenter) &&
        routeLine == old(routeLine) && highlighted == old(highlighted)
    {
      if current.Some? {
        var key := Key(current.value);
        if key in featuresWithRoute {
          var e := featuresWithRoute[key];
          selectedFeature := Some(e);
          mapCenter := e.feature.coordinate;
          DrawRouteLine(e.route);
          ChangeItemColor(e.feature);
        }
      }
    }

    /**
     * The page before the selected store: the previous store in load order,
     * the last one before the first. The selection is left unchanged.
     */
    method ViewControllerBefore() returns (page: Option<Feature>)
      requires selectedFeature.Some? ==> CanLocate(features, selectedFeature.value.feature)
      modifies this`itemView
      ensures selectedFeature.None? ==> page == None && itemView == old(itemView)
      ensures selectedFeature.Some? ==>
        var index := IndexOf(features, selectedFeature.value.feature);
        page == Some(features[PrevIndex(index, |features|)]) && itemView == page
    {
      if selectedFeature.Some? {
        var index: int := IndexOf(features, selectedFeature.value.feature);
        var nextFeature;
        if index - 1 < 0 {
          nextFeature := features[|features| - 1];
        } else {
          nextFeature := features[index - 1];
        }
        assert nextFeature == features[PrevIndex(index, |features|)];
        itemView := Some(nextFeature);
        page := Some(nextFeature);
      } else {
        page := None;
      }
    }

    /**
     * The page after the selected store: the next store in load order, the
     * first one after the last. The selection becomes the cache entry of
     * that store, or none when its key is uncached.
     */
    method ViewControllerAfter() returns (page: Option<Feature>)
      requires selectedFeature.Some? ==> CanLocate(features, selectedFeature.value.feature)
      modifies this`itemView, this`selectedFeature
      ensures old(Loaded()) ==> Loaded()
      ensures old(selectedFeature).None? ==> page == None && itemView == old(itemView) && selectedFeature == None
      ensures old(selectedFeature).Some? ==>
        var index := IndexOf(features, old(selectedFeature).value.feature);
        var next := features[NextIndex(index, |features|)];
        page == Some(next) && itemView == page && selectedFeature == Lookup(featuresWithRoute, Key(next))
    {
      if selectedFeature.Some? {
        var index := IndexOf(features, selectedFeature.value.feature);
        var nextFeature;
        if index != |features| - 1 {
          nextFeature := features[index + 1];
        } else {
          nextFeature := features[0];
        }
        selectedFeature := Lookup(featuresWithRoute, Key(nextFeature));
        itemView := Some(nextFeature);
        page := Some(nextFeature);
      } else {
        page := None;
      }
    }
  }
}
