# Store locator: selection, paging and route cache

A Dafny model of the selection state machine of the store-locator map
screen (`ThemeViewController`). The screen loads a list of store points,
each a coordinate plus an attribute dictionary. It keeps a cache from a
store's key (its `phone` attribute) to a (store, route) pair, and it keeps
the currently selected pair. Map taps, the swipeable callout pager, device
rotation, location updates and route-request completions change that
state. The map SDK, the directions service and UIKit are abstract inputs
and outputs:

- the map style is reduced to a few flags: whether the store layer exists,
  which marker name is highlighted, and the route line's visibility and path;
- the pager is reduced to whether it is hidden and which store the latest
  callout page shows;
- a route request is recorded as pending, and its completion is a separate
  event carrying the service's result;
- the features under a tap, the device orientation and the page UIKit
  reports are parameters.

Files:

- `wrappers.dfy`: `Option`.
- `features.dfy` (module `FeatureLookup`): pure functions. These are the
  store key, the index lookup (a `filter` followed by `firstIndex(of:)`),
  the wrap-around choice of the next and previous page, and the marker
  style predicate.
- `controller.dfy` (module `StoreLocator`): the class
  `ThemeViewController`, with the specification functions for populating
  the cache, for route completions and for the route line, and lemmas
  about them.
- `item_view.dfy` (module `ItemCallout`): the callout page's
  `updateLabels`.

The model follows the code, including these quirks:

- A tap that hits no store does not clear `selectedFeature`, and neither
  does rotating to landscape. Both only unselect the markers, hide the
  route line and hide the pager.
- A route completion updates the cache only. It does not redraw the line
  for the selected store, and `selectedFeature` keeps the pair it copied
  earlier.
- When several stores lie under a tap, each one is selected in turn, so
  the last one wins. The callout is not limited to the first one.
- Populating the cache writes the empty route that the route request
  returns synchronously. This overwrites any route that an earlier
  completion delivered (`PopulatedRoutesEmpty`).
- Only the forward page request (`viewControllerAfter`) changes the
  selection. The backward request leaves it unchanged.
- Paging assumes keys are unique, as the `uniqueIdentifier` comment
  demands. With duplicate keys, forward paging can get stuck: when the
  stores at positions i < j share a key, the lookup of the store at j finds
  a position at or before i, so the page after it lies at or before j. For
  stores `[a, b, c]` where `a` and `b` share a key, the page after `b` is
  `b` again and `c` is never reached (`DuplicateKeysStick`).

## Model

| member | source | states |
|---|---|---|
| FeatureLookup.Key | mapbox-store-locator/ThemeViewController.swift:297-302 | the key is the `phone` attribute when it is a string, otherwise the empty string |
| FeatureLookup.KeyMatches | mapbox-store-locator/ThemeViewController.swift:307 | the filter keeps every loaded feature with the given key and nothing else; it is empty exactly when no feature has that key; its head is the feature at the first position with that key |
| FeatureLookup.FirstIndexOf | mapbox-store-locator/ThemeViewController.swift:308 | `firstIndex(of:)` is none exactly when the value is absent, otherwise the smallest position holding it |
| FeatureLookup.IndexOf | mapbox-store-locator/ThemeViewController.swift:305-312 | under the force-unwraps' demands (string keys everywhere, a feature with the searched key exists), the result is the smallest index whose key equals the searched feature's key, so it is in bounds; the `return 0` fallback is never taken |
| FeatureLookup.FirstKeyIndexExists | mapbox-store-locator/ThemeViewController.swift:307-308 | whenever some feature has a key, a first position with that key exists |
| FeatureLookup.NextIndex | mapbox-store-locator/ThemeViewController.swift:383-387 | the forward page is index+1, or 0 from the last index, so it lies in [0, count) |
| FeatureLookup.PrevIndex | mapbox-store-locator/ThemeViewController.swift:360-364 | the backward page is index-1, or the last index from 0, so it lies in [0, count) |
| FeatureLookup.PagingIsModular | mapbox-store-locator/ThemeViewController.swift:360-387 | the forward page is (index+1) mod count and the backward page is (index-1) mod count |
| FeatureLookup.MarkerSelected | mapbox-store-locator/ThemeViewController.swift:185-189 | under the constant unselected style no marker is selected; under the name-comparing style only a marker whose store has that string name is selected, so a nameless store never is |
| FeatureLookup.PagingInverse | mapbox-store-locator/ThemeViewController.swift:360-387 | backward after forward, and forward after backward, return the starting position |
| FeatureLookup.IndexOfMember | mapbox-store-locator/ThemeViewController.swift:305-312 | with string, pairwise distinct keys, every loaded feature is found at its own position |
| FeatureLookup.DuplicateKeysStick | mapbox-store-locator/ThemeViewController.swift:305-312 | when the stores at positions i < j share a key, the lookup of the store at j finds a position at or before i, so the page after it lies at or before j and no later store is reached from it |
| FeatureLookup.BackwardAfterForward | mapbox-store-locator/ThemeViewController.swift:352-397 | with distinct keys, the page before the page after a feature is that feature's own record, and so is the page after the page before it |
| StoreLocator.Populated | mapbox-store-locator/ThemeViewController.swift:219-226 | populating never removes a key, and the last store written ends up in the cache under its key with the empty route |
| StoreLocator.PopulatedKeys | mapbox-store-locator/ThemeViewController.swift:219-226 | after populating, the cache's keys are its old keys plus the key of every loaded feature, and nothing else |
| StoreLocator.PopulatedLastWins | mapbox-store-locator/ThemeViewController.swift:221-224 | when features share a key, the entry holds the last of them, with an empty route |
| StoreLocator.PopulatedKeepsOthers | mapbox-store-locator/ThemeViewController.swift:219-226 | a cached key that no loaded feature has keeps its old entry |
| StoreLocator.PopulatedRoutesEmpty | mapbox-store-locator/ThemeViewController.swift:199-226 | after populating, every loaded feature's entry has an empty route and is filed under the key of the feature it holds, whatever routes were cached before |
| StoreLocator.LastKeyIndexFrom | mapbox-store-locator/ThemeViewController.swift:221-223 | a key held at some position is held at a last position, which is the write that survives the loop |
| StoreLocator.PopulatedConsistent | mapbox-store-locator/ThemeViewController.swift:223 | populating keeps every entry filed under the key of the store it holds |
| StoreLocator.Completed | mapbox-store-locator/ThemeViewController.swift:205-215 | on success with routes, the destination's key maps to (destination, first route) and every other entry is kept; an error or an empty route list leaves the cache untouched |
| StoreLocator.CompletionsCommute | mapbox-store-locator/ThemeViewController.swift:214 | completions for stores with different keys give the same cache in either arrival order |
| StoreLocator.LastCompletionWins | mapbox-store-locator/ThemeViewController.swift:214 | of two completions for one key, a successful later one alone decides the entry |
| StoreLocator.Drawn | mapbox-store-locator/ThemeViewController.swift:229-235 | a non-empty route is shown on a visible line, and an empty route leaves the line exactly as it was |
| StoreLocator.DrawnAfter | mapbox-store-locator/ThemeViewController.swift:157-165 | selecting the stores under a tap in turn either leaves the line as it was or leaves it visible, and never hides a visible line |
| StoreLocator.DrawnAfterShowsLastRouted | mapbox-store-locator/ThemeViewController.swift:157-165 | after the stores under a tap are selected in turn, the route line shows, visibly, the route of the last of them with a non-empty cached route; if none has one, the line is as it was |
| StoreLocator.ThemeViewController.constructor | mapbox-store-locator/ThemeViewController.swift:21-35 | a fresh screen has no stores, an empty cache, no selection, no pending requests, no store layer and a hidden pager |
| StoreLocator.ThemeViewController.GetRoute | mapbox-store-locator/ThemeViewController.swift:196-217 | a route request, issued once the store layer exists, is recorded as pending and the empty route is returned synchronously; the controller's invariants are kept |
| StoreLocator.ThemeViewController.CompleteRoute | mapbox-store-locator/ThemeViewController.swift:205-215 | any pending request may complete, in any order; it leaves the pending list, and the cache becomes `Completed` of its destination and the result |
| StoreLocator.ThemeViewController.PopulateFeaturesWithRoutes | mapbox-store-locator/ThemeViewController.swift:219-226 | with an invalid user coordinate nothing changes; otherwise one request per store is issued in order and the cache becomes `Populated` of the old cache and the stores |
| StoreLocator.ThemeViewController.DrawPointData | mapbox-store-locator/ThemeViewController.swift:81-105 | loading stores the features, adds the store layer with every marker unselected, and populates the cache; loading into an empty controller establishes `Loaded` |
| StoreLocator.ThemeViewController.SelectionLocatable | mapbox-store-locator/ThemeViewController.swift:305-312 | when the cache, the pending requests and the selection hold loaded stores and every loaded store has a string key, the selection satisfies the lookup's force-unwraps and every cached store has a string key |
| StoreLocator.AfterThenBefore | mapbox-store-locator/ThemeViewController.swift:352-397 | with string, distinct keys and a cache of loaded stores under their own keys, the backward page from the entry the forward page selected is the starting store |
| StoreLocator.ThemeViewController.DidUpdateUserLocation | mapbox-store-locator/ThemeViewController.swift:118-128 | a location update moves the user location and the camera, and repopulates the cache when the coordinate is valid |
| StoreLocator.ThemeViewController.ChangeItemColor | mapbox-store-locator/ThemeViewController.swift:180-191 | afterwards a store's marker is selected exactly when its name equals the given feature's name, so all stores with that name are highlighted; a nameless feature unselects every marker |
| StoreLocator.ThemeViewController.DrawRouteLine | mapbox-store-locator/ThemeViewController.swift:229-260 | a non-empty route becomes the visible route line; an empty route leaves the line as it was |
| StoreLocator.ThemeViewController.GenerateItemPages | mapbox-store-locator/ThemeViewController.swift:277-293 | the camera centres on the store; the selection becomes the cache lookup of its key, none when uncached; its page is built; a cached route is drawn |
| StoreLocator.ThemeViewController.HideCallout | mapbox-store-locator/ThemeViewController.swift:166-176 | every marker is unselected, the route line is hidden and the pager is hidden |
| StoreLocator.ThemeViewController.HandleItemTap | mapbox-store-locator/ThemeViewController.swift:148-178 | an ended tap on stores, outside landscape, leaves the last store highlighted, centred and selected, with `DrawnAfter` as the route line and the pager shown; a miss or a landscape tap hides the callout but keeps `selectedFeature`; an unfinished gesture changes nothing |
| StoreLocator.ThemeViewController.ViewWillTransition | mapbox-store-locator/ThemeViewController.swift:315-329 | rotating to landscape unselects every marker and hides the route line and the pager, keeping `selectedFeature`; other orientations change nothing |
| StoreLocator.ThemeViewController.WillTransitionTo | mapbox-store-locator/ThemeViewController.swift:335-339 | when a page is pending, the selection becomes the cache lookup of its store's key, which may be none |
| StoreLocator.ThemeViewController.DidFinishAnimating | mapbox-store-locator/ThemeViewController.swift:341-350 | only when the current page's key is cached does its entry become the selection, with the camera centred on it, its route drawn and its name highlighted; the store layer exists then, since cache entries come only from loaded stores |
| StoreLocator.ThemeViewController.ViewControllerBefore | mapbox-store-locator/ThemeViewController.swift:352-371 | with no selection it returns none and changes nothing; otherwise it returns the store at `PrevIndex` of the selection's index and leaves the selection unchanged |
| StoreLocator.ThemeViewController.ViewControllerAfter | mapbox-store-locator/ThemeViewController.swift:373-397 | with no selection it returns none and changes nothing; otherwise it returns the store at `NextIndex` of the selection's index and replaces the selection with that store's cache lookup, which may be none |
| ItemCallout.LabelText | mapbox-store-locator/ThemeViewController.swift:463-477 | a label shows the attribute when it is a string, otherwise it keeps its previous text |
| ItemCallout.PhoneLabelShowsKey | mapbox-store-locator/ThemeViewController.swift:474-476 | the phone label of a store with a string key shows exactly that store's cache key |
| ItemCallout.CustomItemView.constructor | mapbox-store-locator/ThemeViewController.swift:442-452 | a page holds its store, and each label is that store's attribute when it is a string, otherwise that label's own nib text |
| ItemCallout.CustomItemView.UpdateLabels | mapbox-store-locator/ThemeViewController.swift:463-477 | each of the name, hours, description and phone labels takes the string attribute, or is left alone |

## Left out

- Map style mutation (sources, layers, images, `NSExpression` values, layer insertion order) is reduced to the flags above. The camera's zoom and animation are left out too.
- The directions network request is not modelled. Its completion is the `CompleteRoute` event, and the route's coordinates are taken as present (the `route.coordinates!` unwrap).
- Reading the data file and parsing GeoJSON are not modelled. `DrawPointData` receives the parsed features.
- The `CLLocationManager` authorization checks are left out. The test before populating on load is always true, so loading always populates. The substitution of the default centre in `addUserLocationDot` is not modelled; the user location is an input.
- Frame and `CGRect` layout, `CustomUserLocationAnnotationView`, the nib loading and label colours of `CustomItemView`, and the custom annotation view are left out. They are floating-point geometry and drawing.
- The theme is assumed to be set, as the theme picker always sets it. Without a theme the data file is never loaded, so the `if let themeColor` branches are always taken.
- The `feature is MGLPointFeature` test in the tap loop is always true, because the store layer holds only point features. The tap's hits are therefore given as features.
- Key: keys compare as plain sequences of code points. Swift's String `==` in the filter, and its `[String: …]` dictionary keys, treat canonically equivalent strings as equal. So `Key`, `Lookup`, `Populated` and `IndexOf` give two entries or no match where the app would merge or match identifiers that differ only in Unicode normalisation.
- ViewControllerBefore: if any loaded store lacks a string `phone` attribute, every backward page request with a selection crashes. The cause is the force-cast inside `filter`, which runs on every element. The model excludes this by requiring `CanLocate`.
- ViewControllerAfter: it shares the same crash with the forward page request, and the model excludes it by requiring `CanLocate`.
- HandleItemTap: an ended tap before the store layer exists crashes, hit or miss. The tap recognizer is installed before the data loads, and both branches call `changeItemColor`, whose force-cast of the missing layer fails. The model excludes that window by requiring the layer.
- ViewWillTransition: rotating to landscape before the store layer exists crashes in the same force-cast. The model excludes it by requiring the layer.
- HideCallout: it shares that crash, and for the same reason it requires the layer.
- ChangeItemColor: this is where the crash happens, because the store layer is force-cast to a symbol layer. The model requires the layer to exist rather than modelling the crash.
- DrawPointData: the early return when the map has no style is not modelled. The method is only reached from the style-loaded callback, where the style exists.
- DrawPointData: after a second load the cache, the pending requests and the selection may still hold stores of the earlier collection, so `Loaded` is promised only for a load into an empty controller.
- The two diagnostic `print` calls (the directions error and the next page's feature) are left out, as output. Coordinates are `real`, so the NaN case of `CLLocationCoordinate2DIsValid` and floating-point equality in `firstIndex(of:)` are not expressed.
- The portrait branch of `viewWillTransition` only lays views out, so it is modelled as a no-op.
- `Themes.swift` and `ThemePickerViewController.swift` are not part of this model. They hold static colour and image configuration and table-view plumbing.
