# Laufpark: presentation reducers, route catalogue and map-screen rules

This project models the application logic of the Laufpark route viewer and of
its modal-presentation playground, and proves properties of it in Dafny.

The model covers four pieces:

- **The modal-presentation reducers.** Two versions share one state: two flags, `modal1Presented` and `modal2Presented`.
  - The playground version has four messages: `present1`, `present2`, `dismiss1` and `dismiss2`.
  - The app version has only the two presenting messages.
  - `present2` has a precondition: the first modal must already be presented. The model states it as a `requires`. `Run` also models it as a value: `Run` sends a sequence of messages and returns `None` when one of them would trap.
  - A `Driver` class holds the state. Its `Send` applies the reducer to the held state.
- **The colour names and the route catalogue built by `loadTracks`.** For each `(colour, count)` definition, the routes are numbered 0 through `count`. Each is read from the GPX resource `"wabe <colour name>-strecke <n>"`.
- **The map screen's state record and rules.**
  - Assigning `selection` resets the position along the route.
  - A tap on the selected route among several overlapping routes selects the smallest other route. With three overlapping routes, once one of the two smallest is selected, further taps alternate between those two and never reach the largest.
  - Any other tap selects the first hit in the registry's key order, whatever its size. The comment in the tap handler (Laufpark/ViewController.swift:159) says taps start out with the smallest route; the code does not, and the model follows the code (`MapState.FirstTapTakesFirstHit`).
  - A newly created renderer is highlighted when its polygon is the selection, or when nothing is selected.
- **The map screen's controller.** Every assignment of its state runs `update(old:)`, which decides from the field differences which effects run. The map view, its renderers and the route-info panel are fields of the controller class.

Main results:
- Every accepted message keeps `modal2Presented ⇒ modal1Presented`.
- In the app version, flags are never cleared. A run traps exactly when some `present2` comes before any `present1`.
- No two routes of a catalogue with distinct colours share a GPX resource name. The proof needs three facts: colour names are injective, colour names contain no `-`, and decimal rendering round-trips.
- A tap on the current selection among several hits selects a different hit, one with the fewest points.
- The controller keeps the invariant that the map, the loading indicator, the panel's pin and the panel's position show the state. The panel's route is not part of this invariant; every entry point states it explicitly. Registered polygons are never dropped.

The two highlighting rules of the map screen disagree after a deselection:
- `update(old:)` restyles every existing renderer as not highlighted.
- The renderer delegate highlights every newly created renderer when nothing is selected.

`MapScreen.DeselectDisagreesWithFreshRenderer` states this divergence. The model keeps both rules as written, because it is not clear from the code which appearance is intended.

## Model

| member | source | states |
|---|---|---|
| PlaygroundPresentation.State.Send | iOSPlayground.playground/Pages/ViewControllerPresentations.xcplaygroundpage/Contents.swift:21-38 | present1 sets the first flag and keeps the second; present2 (only when the first modal is presented) sets the second and keeps the first; dismiss1 clears both; dismiss2 clears the second and keeps the first; the command is always nil; `modal2 ⇒ modal1` is preserved |
| PlaygroundPresentation.Equal | iOSPlayground.playground/Pages/ViewControllerPresentations.xcplaygroundpage/Contents.swift:41-45 | `==` holds exactly when both flags agree, i.e. exactly when the states are identical |
| PlaygroundPresentation.Run | iOSPlayground.playground/Pages/ViewControllerPresentations.xcplaygroundpage/Contents.swift:67-74 | successive `send` calls on the driver, nil when a message fails the reducer's precondition; `RunAppend` and `RunPreservesConsistency` state its properties |
| PlaygroundPresentation.Present2TrapsIff | iOSPlayground.playground/Pages/ViewControllerPresentations.xcplaygroundpage/Contents.swift:26-27 | sending present2 fails its precondition exactly when the first modal is not presented |
| PlaygroundPresentation.SendIdempotent | iOSPlayground.playground/Pages/ViewControllerPresentations.xcplaygroundpage/Contents.swift:21-38 | after any accepted message the same message is accepted again, and sending it twice gives the same state as once |
| PlaygroundPresentation.RunPreservesConsistency | iOSPlayground.playground/Pages/ViewControllerPresentations.xcplaygroundpage/Contents.swift:21-38 | any sequence of messages that does not trap keeps `modal2Presented ⇒ modal1Presented` |
| PlaygroundPresentation.ReachableConsistent | iOSPlayground.playground/Pages/ViewControllerPresentations.xcplaygroundpage/Contents.swift:145 | every state reachable from the driver's initial state (both flags false) is consistent |
| PlaygroundPresentation.RunAppend | iOSPlayground.playground/Pages/ViewControllerPresentations.xcplaygroundpage/Contents.swift:67-74 | sending two sequences one after the other is sending their concatenation; a trap in the first stops everything |
| PlaygroundPresentation.ScriptOutcome | iOSPlayground.playground/Pages/ViewControllerPresentations.xcplaygroundpage/Contents.swift:145-157 | the page's script present1, present2, dismiss2 ends with only the first modal presented |
| PlaygroundPresentation.Driver.constructor | iOSPlayground.playground/Pages/ViewControllerPresentations.xcplaygroundpage/Contents.swift:60-65 | the driver starts holding the given initial state |
| PlaygroundPresentation.Driver.Send | iOSPlayground.playground/Pages/ViewControllerPresentations.xcplaygroundpage/Contents.swift:67-74 | the held state becomes the reducer applied to the prior state (the reducer's precondition is the caller's obligation); consistency is preserved |
| AppPresentation.State.Send | Laufpark/AppDelegate.swift:42-52 | present1 sets the first flag and keeps the second; present2 needs the first flag and sets the second; no flag is cleared; the command is always nil; consistency is preserved |
| AppPresentation.Equal | Laufpark/AppDelegate.swift:55-59 | `==` compares both flags and holds exactly for identical states |
| AppPresentation.Run | Laufpark/AppDelegate.swift:81-88 | successive `send` calls on the driver, nil when a message fails the reducer's precondition; `RunTrapsIff`, `RunNeverClears` and `RunPreservesConsistency` state its properties |
| AppPresentation.RunNeverClears | Laufpark/AppDelegate.swift:42-52 | along any run that does not trap, flags only move from false to true |
| AppPresentation.RunPreservesConsistency | Laufpark/AppDelegate.swift:42-52 | any run that does not trap keeps `modal2Presented ⇒ modal1Presented` |
| AppPresentation.RunTrapsIff | Laufpark/AppDelegate.swift:47-48 | from a state without the first modal, a run traps exactly when some present2 is sent before any present1 |
| AppPresentation.RunFromPresentedNeverTraps | Laufpark/AppDelegate.swift:47-50 | once the first modal is presented no message can fail the precondition |
| AppPresentation.LaunchOutcome | Laufpark/AppDelegate.swift:174-180 | the launch sequence present1, present2 from the initial state presents both modals |
| AppPresentation.Driver.constructor | Laufpark/AppDelegate.swift:74-79 | the driver starts holding the given initial state |
| AppPresentation.Driver.Send | Laufpark/AppDelegate.swift:81-88 | the held state becomes the reducer applied to the prior state; no flag is cleared; consistency is preserved |
| Colors.Name | Laufpark/AppDelegate.swift:5-25 | every one of the 16 colours has a name, a non-empty word of lower-case letters |
| Colors.FromNameOfName | Laufpark/AppDelegate.swift:7-24 | each colour's name reads back as that colour |
| Colors.NameInjective | Laufpark/AppDelegate.swift:7-24 | the 16 names are pairwise distinct |
| Decimal.Show | Laufpark/AppDelegate.swift:215 | a route number is written as decimal digits without leading zeros |
| Decimal.ParseShow | Laufpark/AppDelegate.swift:215 | reading the digits back gives the number |
| Decimal.ShowInjective | Laufpark/AppDelegate.swift:215 | different numbers are written differently |
| TrackCatalog.ResourceName | Laufpark/AppDelegate.swift:215 | the GPX resource name `"wabe <colour name>-strecke <n>"`; `ResourceNameSplits` and `ResourceNameInjective` state that it determines colour and number |
| TrackCatalog.Entries | Laufpark/AppDelegate.swift:215 | the routes of one definition, numbers 0 through `count` in ascending order, each with the definition's colour |
| TrackCatalog.Catalog | Laufpark/AppDelegate.swift:214-222 | the definitions' routes laid end to end, as `CatalogSegment` and `CatalogLength` state |
| TrackCatalog.CatalogLength | Laufpark/AppDelegate.swift:212-222 | the catalogue holds exactly `count + 1` routes per definition |
| TrackCatalog.CatalogSegment | Laufpark/AppDelegate.swift:214-222 | definition `i`'s routes sit in order at the catalogue's slots from the sum of the earlier definitions' sizes on, with its colour and numbered 0 through `count` |
| TrackCatalog.CatalogPosition | Laufpark/AppDelegate.swift:222 | every catalogue slot belongs to the segment of one definition |
| TrackCatalog.ResourceNameSplits | Laufpark/AppDelegate.swift:215 | a name `"wabe <word>-strecke <digits>"` with a letters-only word determines both the word and the digits |
| TrackCatalog.ResourceNameInjective | Laufpark/AppDelegate.swift:215-217 | two routes have the same resource name `"wabe <colour name>-strecke <n>"` only when colour and number agree |
| TrackCatalog.ResourceInjective | Laufpark/AppDelegate.swift:215-217 | two catalogue entries read from the same resource are the same route |
| TrackCatalog.DistinctEntries | Laufpark/AppDelegate.swift:214-222 | with no colour defined twice, no (colour, number) route appears twice in the catalogue |
| TrackCatalog.DistinctResources | Laufpark/AppDelegate.swift:214-222 | with no colour defined twice, every route of the catalogue is read from a different resource |
| TrackCatalog.ShippedColorsDistinct | Laufpark/AppDelegate.swift:194-211 | the shipped definitions list each colour once |
| TrackCatalog.ShippedTotal | Laufpark/AppDelegate.swift:194-222 | the shipped definitions name 75 routes, and the catalogue holds 75 entries |
| MapState.State.WithSelection | Laufpark/ViewController.swift:16-20 | any assignment to the selection sets it and resets the route position to nil, leaving the routes alone |
| MapState.State.Loading | Laufpark/ViewController.swift:14 | the screen is loading exactly when there are no routes; `Init` and `ViewController.Update` state how the indicator follows it |
| MapState.State.HasSelection | Laufpark/ViewController.swift:24 | something is selected exactly when the selection is not nil; `WithSelection` and `Init` state its value |
| MapState.Init | Laufpark/ViewController.swift:12-30 | a new state has the given routes, no selection and no position; it has no selection, and it is loading exactly when there are no routes |
| MapState.Equal | Laufpark/ViewController.swift:32-34 | `==` compares selection, position and routes and nothing else |
| MapState.Cycles | Laufpark/ViewController.swift:160 | the tap cycles exactly when something is selected, there are at least two hits and the selection is among them; `NextSelection` states both branches |
| MapState.SortByPointCount | Laufpark/ViewController.swift:161 | the hits in ascending point-count order, a permutation of the hits |
| MapState.FirstOther | Laufpark/ViewController.swift:161 | the first entry that is not the current selection, nil exactly when every entry is the selection |
| MapState.FirstOtherIsSmallest | Laufpark/ViewController.swift:161 | the first non-selected entry of the sorted hits is a hit, is not the selection, and has no more points than any other non-selected hit |
| MapState.NextSelection | Laufpark/ViewController.swift:159-164 | when the selection is among at least two hits, the new selection is another hit with the fewest points (nil only if every hit is the selection); otherwise it is the first hit, or nil without hits |
| MapState.CyclingMoves | Laufpark/ViewController.swift:153-161 | among distinct hits (distinct dictionary keys), tapping the current selection always selects a different hit |
| MapState.TwoHitsToggle | Laufpark/ViewController.swift:159-161 | with two overlapping routes, taps toggle between them |
| MapState.FirstTapTakesFirstHit | Laufpark/ViewController.swift:159-164 | with nothing selected, or a selection that was not hit, the tap selects the first hit even when a later hit has fewer points |
| MapState.ThreeHitsSkipLargest | Laufpark/ViewController.swift:159-161 | with three overlapping routes of strictly increasing size, a tap on the smallest selects the second and a tap on the second selects the smallest, so tapping never reaches the largest |
| MapState.FreshRendererSelected | Laufpark/ViewController.swift:181-182 | a new renderer is highlighted exactly when its polygon is the selection, and always when nothing is selected |
| MapState.FreshHighlightUnique | Laufpark/ViewController.swift:181-182 | with a selection, new renderers highlight the selected polygon only |
| MapScreen.Register | Laufpark/ViewController.swift:116-118 | the registry after inserting every route under its polygon in order; `RegisterKeys`, `RegisterContents` and `RegisterLast` state its contents |
| MapScreen.PolygonsOf | Laufpark/ViewController.swift:116-119 | the routes' polygons in route order, one per route; `PolygonsOfAt` states each position |
| MapScreen.PolygonsOfAt | Laufpark/ViewController.swift:116-119 | position `i` of the added overlays is the polygon of route `i` |
| MapScreen.RegisterKeys | Laufpark/ViewController.swift:116-120 | registering routes keeps every old key and adds each route's polygon as a key, and nothing else |
| MapScreen.RegisterContents | Laufpark/ViewController.swift:116-120 | after registering, the entry under a route's polygon draws that polygon, and entries of polygons no route draws are unchanged |
| MapScreen.RegisterLast | Laufpark/ViewController.swift:116-119 | the entry under a route's polygon is that route itself, unless a later route has the same polygon (a re-registered polygon's old entry is overwritten) |
| MapScreen.OverlaysRegistered | Laufpark/ViewController.swift:114-121 | after registering, every polygon on the map is known and nothing known was removed |
| MapScreen.AddRoutes | Laufpark/ViewController.swift:116-120 | the loop records every route under its polygon and adds the polygons to the map in route order |
| MapScreen.Restyled | Laufpark/ViewController.swift:127-133 | restyling keeps the set of renderers and highlights exactly the selected one |
| MapScreen.Unhighlight | Laufpark/ViewController.swift:127-130 | the loop over all known polygons configures every existing renderer as not highlighted, in its route's colour |
| MapScreen.HighlightSelected | Laufpark/ViewController.swift:127-133 | un-highlighting all and then highlighting the selected renderer, if it exists, is the restyling for the selection |
| MapScreen.PanelTrack | Laufpark/ViewController.swift:134 | the panel's route: the registered route of the selected polygon, nil without a selection or for an unregistered polygon; `Reselect` and `MapTapped` state when the panel takes it |
| MapScreen.DeselectDisagreesWithFreshRenderer | Laufpark/ViewController.swift:122-133 | after a deselection existing renderers are not highlighted while a newly created one is |
| MapScreen.ViewController.constructor | Laufpark/ViewController.swift:38-70 | the screen starts with no routes, no selection, no known polygons and the loading indicator running, and shows its state |
| MapScreen.ViewController.RebuildOverlays | Laufpark/ViewController.swift:114-121 | on a change of routes the overlays become the routes' polygons, the renderers go with the old overlays, every route is registered under its polygon and no registered polygon is dropped |
| MapScreen.ViewController.Reselect | Laufpark/ViewController.swift:122-135 | on a change of selection the panel is pinned exactly when something is selected, the renderers are restyled to highlight only the selection, and the panel shows the selected route |
| MapScreen.ViewController.Update | Laufpark/ViewController.swift:108-139 | the loading indicator follows the state. The overlays are rebuilt, and polygons registered without removing any, only when the routes differ. The panel, its constraint and the highlighting change only when the selection differs. The panel position changes only when the position differs. Afterwards the screen shows the state |
| MapScreen.ViewController.SetTracks | Laufpark/ViewController.swift:60-62 | replaces the routes and keeps selection and position. When the routes differ, the overlays become their polygons, every route is registered and the renderers are dropped; otherwise overlays, registry and renderers are unchanged. No registered polygon is removed, the panel's pin and route are unchanged, and the screen shows the new state |
| MapScreen.ViewController.ChangedPosition | Laufpark/ViewController.swift:170-172 | sets the position along the route; the panel's position becomes it, while overlays, registry, renderers and the panel's pin and route are unchanged; the screen shows the new state |
| MapScreen.ViewController.MapTapped | Laufpark/ViewController.swift:150-165 | the selection becomes the tap rule's choice among the hits and the position is reset. Overlays and registry are unchanged. When the selection differs, the renderers are restyled to highlight only it, the panel is pinned exactly when something is selected, and it shows the selected route; otherwise renderers and panel are unchanged. The panel's position is cleared and the screen shows the new state |
| MapScreen.ViewController.RendererFor | Laufpark/ViewController.swift:177-184 | an existing renderer is returned unchanged; a new one gets its route's colour and the fresh-renderer highlighting; only the renderers may change, so the state, the registry, the overlays and the panel are untouched |

## Left out

- The incremental-computation library (`I`, `Input`, `Var`, `IBox`, `observe`, `bind`, `flatten`, `map`, disposables) is not part of this model. `Input.change` in `Driver.send` is modelled as applying the reducer to the held value. Its equality-gated notification of observers is not modelled.
- `view(state:send:)`, `viewController(rootView:)`, `bindModalChild` and the navigation controller are left out. They present and dismiss UIKit view controllers, and the presentation race noted in the playground depends on animation timing.
- `DispatchQueue` delays and the application-delegate lifecycle are left out. The timed message scripts are modelled as plain message sequences.
- `Command` has no cases in the source. Dafny needs a constructor, so the model has one placeholder constructor, and the contracts prove it is never produced.
- The `Reducer` protocol is left out. Each reducer is modelled directly.
- GPX loading is left out: `TrackReader`, `Bundle.main.url`, the `time` helper, and building `Track` values from the reader's name and points. Only the generated (colour, number, resource name) entries are modelled. The app also leaves `loadTracks` uncalled (the call is commented out).
- Counts are naturals. A negative count would trap in `0...count`. The shipped table has none.
- `Track` and `Color` are defined in files not part of this model. A `Track` carries its colour, number, name and the polygon that draws it. `Track`'s `==` is taken to compare all four fields; the routes comparison in `update(old:)` (Laufpark/ViewController.swift:114) and the state's `==` (line 33) depend on it. `track.polygon` is treated as a stored value. A polygon is modelled by its `id` (the overlay object's identity) and its point count; distinct overlay objects are taken to have distinct `id`s, so comparing polygons compares identities.
- Map geometry and hit-testing are left out (`MKMapPoint`, `renderer.path.contains`, the visible map rect, shake-to-reset, location permission). The tapped hits are an input sequence.
- MapState.NextSelection: when several other hits share the smallest point count, the contract does not say which of them is chosen. The source's sort does not promise an order among equal keys either.
- `MKPolygonRenderer.configure` colours, alphas and line widths are abstracted to a style of (route colour, highlighted). The layout animation after a selection change is left out.
- `trackPosition` is a floating-point fraction in the source and a `real` in the model. Only equality is used.
- MapScreen.ViewController.constructor: the initial route and position of the route-info panel are taken to be nil. `TrackInfoView` is not part of this model. The constructor also folds in the configuration that `viewDidLoad` performs.
- Laufpark/Views.swift and Incremental/Incremental+UIKit/ViewController.swift are UIKit wiring and are left out.
