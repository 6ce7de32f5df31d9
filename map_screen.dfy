/**
 * The map screen's controller: it holds the screen state and, whenever that
 * state is assigned, brings the map and the route-info panel up to date by
 * comparing the new state with the old one. The map view, its renderers and
 * the panel are represented by the fields they expose to the controller.
 */
module MapScreen {

  import opened Wrappers
  import opened Colors
  import opened MapState

  /** How a polygon renderer is configured: its route colour, highlighted or not. */
  datatype Style = Style(color: Color, selected: bool)

  /** The polygons of `ts`, in order. */
  function PolygonsOf(ts: seq<Track>): (r: seq<Polygon>)
    ensures |r| == |ts|
    decreases |ts|
  {
    if ts == [] then [] else PolygonsOf(ts[..|ts| - 1]) + [ts[|ts| - 1].polygon]
  }

  /** `m` after inserting, in order, every track of `ts` under its polygon. */
  function Register(m: map<Polygon, Track>, ts: seq<Track>): (r: map<Polygon, Track>)
    decreases |ts|
  {
    if ts == [] then m else Register(m, ts[..|ts| - 1])[ts[|ts| - 1].polygon := ts[|ts| - 1]]
  }

  /** Registering routes never removes a key: the keys become the old keys plus the routes' polygons. */
  lemma {:induction false} RegisterKeys(m: map<Polygon, Track>, ts: seq<Track>)
    ensures Register(m, ts).Keys == m.Keys + set t | t in ts :: t.polygon
    decreases |ts|
  {
    if ts != [] {
      var init, last := ts[..|ts| - 1], ts[|ts| - 1];
      RegisterKeys(m, init);
      assert ts == init + [last];
      assert (set t | t in ts :: t.polygon) == (set t | t in init :: t.polygon) + {last.polygon};
    }
  }

  /**
   * After registering routes, the entry under each route's polygon draws
   * that polygon, and the entries of polygons no route draws are unchanged.
   */
  lemma {:induction false} RegisterContents(m: map<Polygon, Track>, ts: seq<Track>)
    ensures forall t :: t in ts ==> t.polygon in Register(m, ts) && Register(m, ts)[t.polygon].polygon == t.polygon
    ensures forall p :: p in m && (forall t :: t in ts ==> t.polygon != p) ==> p in Register(m, ts) && Register(m, ts)[p] == m[p]
    decreases |ts|
  {
    if ts != [] {
      var init, last := ts[..|ts| - 1], ts[|ts| - 1];
      RegisterContents(m, init);
      assert ts == init + [last];
      assert forall t :: t in ts <==> t in init || t == last;
    }
  }

  /** The entry under a route's polygon is that route, unless a later route is drawn by the same polygon. */
  lemma {:induction false} RegisterLast(m: map<Polygon, Track>, ts: seq<Track>, i: nat)
    requires i < |ts| && LastWithPolygon(ts, i)
    ensures ts[i].polygon in Register(m, ts) && Register(m, ts)[ts[i].polygon] == ts[i]
    decreases |ts|
  {
    if i < |ts| - 1 {
      var init := ts[..|ts| - 1];
      assert init[i] == ts[i];
      assert LastWithPolygon(init, i) by {
        forall j | i < j < |init| ensures init[j].polygon != init[i].polygon {
          assert init[j] == ts[j];
        }
      }
      RegisterLast(m, init, i);
    }
  }

  /** No route after position `i` of `ts` is drawn by the polygon of route `i`. */
  predicate LastWithPolygon(ts: seq<Track>, i: nat)
    requires i < |ts|
  {
    forall j :: i < j < |ts| ==> ts[j].polygon != ts[i].polygon
  }

  lemma {:induction false} PolygonsOfAt(ts: seq<Track>, i: nat)
    requires i < |ts|
    ensures PolygonsOf(ts)[i] == ts[i].polygon
    decreases |ts|
  {
    if i < |ts| - 1 {
      PolygonsOfAt(ts[..|ts| - 1], i);
    }
  }

  /** After registering the routes, every polygon they draw is known, and nothing known is forgotten. */
  lemma OverlaysRegistered(m: map<Polygon, Track>, ts: seq<Track>)
    ensures forall p :: p in PolygonsOf(ts) ==> p in Register(m, ts)
    ensures m.Keys <= Register(m, ts).Keys
  {
  }

  /** The existing renderers restyled for `selection`: only the selected polygon highlighted. */
  function Restyled(renderers: map<Polygon, Style>, polygons: map<Polygon, Track>, selection: Option<Polygon>): (r: map<Polygon, Style>)
    requires renderers.Keys <= polygons.Keys
    ensures r.Keys == renderers.Keys
    ensures forall p :: p in r ==> r[p].selected == (selection == Some(p))
  {
    map p | p in renderers :: Style(polygons[p].color, selection == Some(p))
  }

  /** The route the panel shows for `selection`, if that polygon belongs to a route. */
  function PanelTrack(polygons: map<Polygon, Track>, selection: Option<Polygon>): (r: Option<Track>) {
    if selection.Some? && selection.value in polygons then Some(polygons[selection.value]) else None
  }

  /**
   * The two highlighting rules disagree once nothing is selected: deselecting
   * restyles every existing renderer as not highlighted, while a renderer
   * created afterwards is highlighted.
   */
  lemma DeselectDisagreesWithFreshRenderer(renderers: map<Polygon, Style>, polygons: map<Polygon, Track>, state: State, p: Polygon)
    requires renderers.Keys <= polygons.Keys && p in renderers
    requires state.selection == None
    ensures !Restyled(renderers, polygons, state.selection)[p].selected
    ensures FreshRendererSelected(state, p)
  {
  }

  /**
   * The loop that adds the routes to the map: every route is recorded under
   * its polygon, and its polygon is added to the overlays, in route order.
   */
  method AddRoutes(polygons: map<Polygon, Track>, tracks: seq<Track>) returns (registered: map<Polygon, Track>, shown: seq<Polygon>)
    ensures registered == Register(polygons, tracks)
    ensures shown == PolygonsOf(tracks)
  {
    registered, shown := polygons, [];
    var i := 0;
    while i < |tracks|
      invariant 0 <= i <= |tracks|
      invariant registered == Register(polygons, tracks[..i])
      invariant shown == PolygonsOf(tracks[..i])
    {
      var track := tracks[i];
      assert tracks[..i + 1][..i] == tracks[..i];
      registered := registered[track.polygon := track];
      shown := shown + [track.polygon];
      i := i + 1;
    }
    assert tracks[..i] == tracks;
  }

  /**
   * The loop over all known polygons that configures every existing renderer
   * as not highlighted.
   */
  method Unhighlight(renderers: map<Polygon, Style>, polygons: map<Polygon, Track>) returns (styles: map<Polygon, Style>)
    requires renderers.Keys <= polygons.Keys
    ensures styles == Restyled(renderers, polygons, None)
  {
    styles := renderers;
    var remaining := polygons.Keys;
    while remaining != {}
      invariant remaining <= polygons.Keys
      invariant styles.Keys == renderers.Keys
      invariant forall p :: p in styles && p !in remaining ==> styles[p] == Style(polygons[p].color, false)
      invariant forall p :: p in styles && p in remaining ==> styles[p] == renderers[p]
      decreases remaining
    {
      var polygon :| polygon in remaining;
      if polygon in styles {
        styles := styles[polygon := Style(polygons[polygon].color, false)];
      }
      remaining := remaining - {polygon};
    }
  }

  /** Highlighting the selected renderer after un-highlighting all gives the restyled map. */
  lemma HighlightSelected(renderers: map<Polygon, Style>, polygons: map<Polygon, Track>, selection: Option<Polygon>)
    requires renderers.Keys <= polygons.Keys
    ensures selection.Some? && selection.value in renderers ==>
      Restyled(renderers, polygons, None)[selection.value := Style(polygons[selection.value].color, true)]
        == Restyled(renderers, polygons, selection)
    ensures !(selection.Some? && selection.value in renderers) ==>
      Restyled(renderers, polygons, None) == Restyled(renderers, polygons, selection)
  {
  }

  class ViewController {
    var state: State
    /** Every route ever shown, by the polygon that draws it. */
    var polygons: map<Polygon, Track>
    /** The polygons on the map, in the order they were added. */
    var overlays: seq<Polygon>
    /** The renderers the map has created so far, by polygon. */
    var renderers: map<Polygon, Style>
    var loadingAnimating: bool
    /** Whether the route-info panel is pinned on screen. */
    var trackInfoActive: bool
    var trackInfoTrack: Option<Track>
    var trackInfoPosition: Option<real>

    /** The map, the loading indicator, and the panel's pin and position show state `s`. */
    ghost predicate Shows(s: State)
      reads this
    {
      && overlays == PolygonsOf(s.tracks)
      && (forall p :: p in overlays ==> p in polygons)
      && (forall p :: p in renderers ==> p in overlays)
      && loadingAnimating == s.Loading()
      && trackInfoActive == s.HasSelection()
      && trackInfoPosition == s.trackPosition
      && (s.HasSelection() ==> forall p :: p in renderers ==> renderers[p].selected == (s.selection == Some(p)))
    }

    ghost predicate Valid()
      reads this
    {
      Shows(state)
    }

    /** A fresh screen: no routes, nothing selected, the loading indicator running. */
    constructor ()
      ensures Valid()
      ensures state == Init([]) && polygons == map[] && renderers == map[]
      ensures trackInfoTrack == None
    {
      state := Init([]);
      polygons := map[];
      overlays := [];
      renderers := map[];
      loadingAnimating := true;
      trackInfoActive := false;
      trackInfoTrack := None;
      trackInfoPosition := None;
    }

    /**
     * The routes changed: the map's overlays (and with them the renderers)
     * are replaced by the routes' polygons, each route recorded under its polygon.
     */
    method RebuildOverlays()
      modifies this`polygons, this`overlays, this`renderers
      ensures polygons == Register(old(polygons), state.tracks)
      ensures overlays == PolygonsOf(state.tracks) && renderers == map[]
      ensures old(polygons).Keys <= polygons.Keys
      ensures forall p :: p in overlays ==> p in polygons
    {
      renderers := map[];
      polygons, overlays := AddRoutes(polygons, state.tracks);
      OverlaysRegistered(old(polygons), state.tracks);
    }

    /**
     * The selection changed: the panel is pinned exactly when something is
     * selected, the renderers are restyled and the panel shows the selected route.
     */
    method Reselect()
      requires renderers.Keys <= polygons.Keys
      modifies this`renderers, this`trackInfoActive, this`trackInfoTrack
      ensures trackInfoActive == state.HasSelection()
      ensures renderers == Restyled(old(renderers), polygons, state.selection)
      ensures trackInfoTrack == PanelTrack(polygons, state.selection)
    {
      trackInfoActive := state.selection != None;
      var styles := Unhighlight(renderers, polygons);
      HighlightSelected(renderers, polygons, state.selection);
      if state.selection.Some? && state.selection.value in styles {
        var selected := state.selection.value;
        styles := styles[selected := Style(polygons[selected].color, true)];
      }
      renderers := styles;
      trackInfoTrack := PanelTrack(polygons, state.selection);
    }

    /**
     * The effects of assigning `state` when it was `prev`: the loading
     * indicator follows the state; the overlays are rebuilt only when the
     * routes differ; the panel and the highlighting change only when the
     * selection differs; the panel's position only when the position differs.
     */
    method Update(prev: State)
      requires Shows(prev)
      modifies this
      ensures state == old(state)
      ensures loadingAnimating == state.Loading()
      ensures state.tracks != prev.tracks ==> overlays == PolygonsOf(state.tracks) && polygons == Register(old(polygons), state.tracks)
      ensures state.tracks == prev.tracks ==> overlays == old(overlays) && polygons == old(polygons)
      ensures old(polygons).Keys <= polygons.Keys
      ensures var kept := if state.tracks != prev.tracks then map[] else old(renderers);
        renderers == if state.selection != prev.selection then Restyled(kept, polygons, state.selection) else kept
      ensures trackInfoActive == if state.selection != prev.selection then state.HasSelection() else old(trackInfoActive)
      ensures trackInfoTrack == if state.selection != prev.selection then PanelTrack(polygons, state.selection) else old(trackInfoTrack)
      ensures trackInfoPosition == if state.trackPosition != prev.trackPosition then state.trackPosition else old(trackInfoPosition)
      ensures Valid()
    {
      loadingAnimating := state.Loading();
      if state.tracks != prev.tracks {
        RebuildOverlays();
      }
      if state.selection != prev.selection {
        Reselect();
      }
      if state.trackPosition != prev.trackPosition {
        trackInfoPosition := state.trackPosition;
      }
    }

    /** New routes arrive: the state's routes are replaced and the screen updated. */
    method SetTracks(tracks: seq<Track>)
      requires Valid()
      modifies this
      ensures state == old(state).(tracks := tracks)
      ensures tracks != old(state).tracks ==>
        overlays == PolygonsOf(tracks) && polygons == Register(old(polygons), tracks) && renderers == map[]
      ensures tracks == old(state).tracks ==>
        overlays == old(overlays) && polygons == old(polygons) && renderers == old(renderers)
      ensures old(polygons).Keys <= polygons.Keys
      ensures trackInfoActive == old(trackInfoActive) && trackInfoTrack == old(trackInfoTrack)
      ensures Valid()
    {
      var prev := state;
      state := state.(tracks := tracks);
      Update(prev);
    }

    /** The route profile reports a new position along the selected route. */
    method ChangedPosition(position: Option<real>)
      requires Valid()
      modifies this
      ensures state == old(state).(trackPosition := position)
      ensures polygons == old(polygons) && overlays == old(overlays) && renderers == old(renderers)
      ensures trackInfoActive == old(trackInfoActive) && trackInfoTrack == old(trackInfoTrack)
      ensures trackInfoPosition == position
      ensures Valid()
    {
      var prev := state;
      state := state.(trackPosition := position);
      Update(prev);
    }

    /**
     * A tap on the map; `possibilities` are the drawn polygons whose outline
     * contains the tapped point (hit-testing belongs to the map view).
     */
    method MapTapped(possibilities: seq<Polygon>)
      requires Valid()
      modifies this
      ensures state == old(state).WithSelection(NextSelection(old(state).selection, possibilities))
      ensures polygons == old(polygons) && overlays == old(overlays)
      ensures state.selection != old(state).selection ==>
        && renderers == Restyled(old(renderers), polygons, state.selection)
        && trackInfoActive == state.HasSelection()
        && trackInfoTrack == PanelTrack(polygons, state.selection)
      ensures state.selection == old(state).selection ==>
        renderers == old(renderers) && trackInfoActive == old(trackInfoActive) && trackInfoTrack == old(trackInfoTrack)
      ensures trackInfoPosition == None
      ensures Valid()
    {
      var prev := state;
      state := state.WithSelection(NextSelection(state.selection, possibilities));
      Update(prev);
    }

    /**
     * The map asks for the renderer of one of its overlays: an existing one is
     * returned as it is, a new one is configured from the current selection.
     */
    method RendererFor(polygon: Polygon) returns (style: Style)
      requires Valid() && polygon in overlays
      modifies this`renderers
      ensures state == old(state) && polygons == old(polygons) && overlays == old(overlays)
      ensures Valid()
      ensures polygon in old(renderers) ==> style == old(renderers)[polygon] && renderers == old(renderers)
      ensures polygon !in old(renderers) ==>
        style == Style(polygons[polygon].color, FreshRendererSelected(state, polygon))
        && renderers == old(renderers)[polygon := style]
    {
      if polygon in renderers {
        style := renderers[polygon];
      } else {
        style := Style(polygons[polygon].color, FreshRendererSelected(state, polygon));
        renderers := renderers[polygon := style];
      }
    }
  }
}
