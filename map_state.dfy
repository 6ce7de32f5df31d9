/**
 * The map screen's state record and the rules that decide what is selected
 * and how a route is highlighted. A polygon is its `id`, which stands for
 * the identity of the map-overlay object, together with its point count, the
 * only property the rules look at; two overlay objects never share an `id`.
 */
module MapState {

  import opened Wrappers
  import opened Colors

  datatype Polygon = Polygon(id: nat, pointCount: nat)

  /** A loaded route and the polygon that draws it on the map. */
  datatype Track = Track(color: Color, number: int, name: string, polygon: Polygon)

  /**
   * `trackPosition` is the fraction along the selected route that the route
   * profile points at; the model only ever compares it, so it is a `real`.
   */
  datatype State = State(tracks: seq<Track>, selection: Option<Polygon>, trackPosition: Option<real>) {

    /** The screen is loading until some routes are known. */
    predicate Loading() {
      tracks == []
    }

    predicate HasSelection() {
      selection.Some?
    }

    /**
     * Assigning `selection` (even to the value it already has) also forgets
     * the position along the previously selected route.
     */
    function WithSelection(s: Option<Polygon>): (r: State)
      ensures r.selection == s && r.trackPosition == None && r.tracks == tracks
      ensures r.HasSelection() <==> s.Some?
    {
      this.(selection := s, trackPosition := None)
    }
  }

  /** The screen's state before any route is loaded or selected. */
  function Init(tracks: seq<Track>): (r: State)
    ensures r.tracks == tracks && r.selection == None && r.trackPosition == None
    ensures !r.HasSelection() && (r.Loading() <==> |tracks| == 0)
  {
    State(tracks, None, None)
  }

  /** The state's `==`: selection, position and routes agree, and nothing else is compared. */
  function Equal(lhs: State, rhs: State): (r: bool)
    ensures r <==> lhs == rhs
  {
    lhs.selection == rhs.selection && lhs.trackPosition == rhs.trackPosition && lhs.tracks == rhs.tracks
  }

  // ---- choosing the selection after a tap ----

  predicate SortedByPointCount(ps: seq<Polygon>) {
    forall i, j :: 0 <= i < j < |ps| ==> ps[i].pointCount <= ps[j].pointCount
  }

  lemma PrependSorted(p: Polygon, ps: seq<Polygon>)
    requires SortedByPointCount(ps)
    requires forall j :: 0 <= j < |ps| ==> p.pointCount <= ps[j].pointCount
    ensures SortedByPointCount([p] + ps)
  {
  }

  /** Keeping the smaller head in front of the insertion into the tail keeps the order and the elements. */
  lemma InsertBehindHead(p: Polygon, ps: seq<Polygon>, rest: seq<Polygon>)
    requires SortedByPointCount(ps) && |ps| > 0 && ps[0].pointCount < p.pointCount
    requires SortedByPointCount(rest) && multiset(rest) == multiset(ps[1..]) + multiset{p}
    requires |rest| > 0 && (rest[0] == p || (|ps| > 1 && rest[0] == ps[1]))
    ensures SortedByPointCount([ps[0]] + rest)
    ensures multiset([ps[0]] + rest) == multiset(ps) + multiset{p}
  {
    assert ps == [ps[0]] + ps[1..];
    assert forall j :: 0 <= j < |rest| ==> ps[0].pointCount <= rest[j].pointCount by {
      forall j | 0 <= j < |rest| ensures ps[0].pointCount <= rest[j].pointCount {
        assert rest[0].pointCount <= rest[j].pointCount;
      }
    }
    PrependSorted(ps[0], rest);
  }

  function InsertByPointCount(p: Polygon, ps: seq<Polygon>): (r: seq<Polygon>)
    requires SortedByPointCount(ps)
    ensures SortedByPointCount(r)
    ensures multiset(r) == multiset(ps) + multiset{p}
    ensures |r| > 0 && (r[0] == p || (|ps| > 0 && r[0] == ps[0]))
    decreases |ps|
  {
    if ps == [] || p.pointCount <= ps[0].pointCount then [p] + ps
    else
      var rest := InsertByPointCount(p, ps[1..]);
      InsertBehindHead(p, ps, rest);
      [ps[0]] + rest
  }

  /** The polygons ordered by ascending point count (the smallest route first). */
  function SortByPointCount(ps: seq<Polygon>): (r: seq<Polygon>)
    ensures SortedByPointCount(r)
    ensures multiset(r) == multiset(ps)
    decreases |ps|
  {
    if ps == [] then []
    else
      assert ps == [ps[0]] + ps[1..];
      InsertByPointCount(ps[0], SortByPointCount(ps[1..]))
  }

  /** The first polygon of `ps` that is not `s`, if there is one. */
  function FirstOther(ps: seq<Polygon>, s: Polygon): (r: Option<Polygon>)
    ensures r.None? <==> forall q :: q in ps ==> q == s
    ensures r.Some? ==> exists k :: 0 <= k < |ps| && ps[k] == r.value && r.value != s
                                   && forall j :: 0 <= j < k ==> ps[j] == s
    decreases |ps|
  {
    if ps == [] then None
    else if ps[0] != s then assert ps[0] in ps; Some(ps[0])
    else
      var r := FirstOther(ps[1..], s);
      if r.Some? then
        var k :| 0 <= k < |ps[1..]| && ps[1..][k] == r.value && r.value != s
                 && forall j :: 0 <= j < k ==> ps[1..][j] == s;
        assert ps[k + 1] == r.value && ps[k + 1] in ps;
        r
      else
        assert forall q :: q in ps ==> q == ps[0] || q in ps[1..];
        r
  }

  /**
   * The selection after a tap that hits `possibilities`: when the current
   * selection is among several hits, the tap moves to the smallest other
   * route; otherwise it selects the first hit, or nothing when nothing was hit.
   */
  function NextSelection(current: Option<Polygon>, possibilities: seq<Polygon>): (r: Option<Polygon>)
    ensures Cycles(current, possibilities) ==>
      && (r.Some? <==> exists q :: q in possibilities && q != current.value)
      && (r.Some? ==> r.value in possibilities && r.value != current.value)
      && (r.Some? ==> forall q :: q in possibilities && q != current.value ==> r.value.pointCount <= q.pointCount)
    ensures !Cycles(current, possibilities) ==>
      && (r.None? <==> |possibilities| == 0)
      && (r.Some? ==> r.value == possibilities[0])
  {
    if Cycles(current, possibilities) then
      var s := current.value;
      var sorted := SortByPointCount(possibilities);
      var r := FirstOther(sorted, s);
      FirstOtherIsSmallest(possibilities, sorted, s, r);
      r
    else if |possibilities| > 0 then Some(possibilities[0])
    else None
  }

  /** Whether a tap cycles: something is selected and it is one of at least two hits. */
  predicate Cycles(current: Option<Polygon>, possibilities: seq<Polygon>) {
    current.Some? && |possibilities| > 1 && current.value in possibilities
  }

  lemma FirstOtherIsSmallest(ps: seq<Polygon>, sorted: seq<Polygon>, s: Polygon, r: Option<Polygon>)
    requires SortedByPointCount(sorted) && multiset(sorted) == multiset(ps)
    requires r == FirstOther(sorted, s)
    ensures r.None? <==> forall q :: q in ps ==> q == s
    ensures r.Some? ==> r.value in ps && r.value != s
    ensures r.Some? ==> forall q :: q in ps && q != s ==> r.value.pointCount <= q.pointCount
  {
    forall q ensures q in ps <==> q in sorted {
      assert q in ps <==> q in multiset(ps);
      assert q in sorted <==> q in multiset(sorted);
    }
    if r.Some? {
      var k :| 0 <= k < |sorted| && sorted[k] == r.value && r.value != s
               && forall j :: 0 <= j < k ==> sorted[j] == s;
      forall q | q in ps && q != s
        ensures r.value.pointCount <= q.pointCount
      {
        var j :| 0 <= j < |sorted| && sorted[j] == q;
        assert k <= j;
      }
    }
  }

  /**
   * Among hits without repetitions (they are distinct map overlays), a tap on
   * the current selection always moves the selection to another hit.
   */
  lemma CyclingMoves(current: Option<Polygon>, possibilities: seq<Polygon>)
    requires Cycles(current, possibilities)
    requires forall i, j :: 0 <= i < j < |possibilities| ==> possibilities[i] != possibilities[j]
    ensures NextSelection(current, possibilities).Some?
    ensures NextSelection(current, possibilities) != current
  {
    var s := current.value;
    if possibilities[0] == s {
      assert possibilities[1] != s && possibilities[1] in possibilities;
    } else {
      assert possibilities[0] in possibilities;
    }
  }

  /** With exactly two overlapping routes, repeated taps toggle between them. */
  lemma TwoHitsToggle(possibilities: seq<Polygon>)
    requires |possibilities| == 2 && possibilities[0] != possibilities[1]
    ensures NextSelection(Some(possibilities[0]), possibilities) == Some(possibilities[1])
    ensures NextSelection(Some(possibilities[1]), possibilities) == Some(possibilities[0])
  {
    var a, b := possibilities[0], possibilities[1];
    assert a in possibilities && b in possibilities;
    assert forall q :: q in possibilities ==> q == a || q == b;
  }

  /**
   * Tapping cycles only between the two smallest of three overlapping routes:
   * from the smallest the tap moves to the second, and from the second back to
   * the smallest, so the largest is never reached by tapping again.
   */
  lemma ThreeHitsSkipLargest(a: Polygon, b: Polygon, c: Polygon)
    requires a.pointCount < b.pointCount < c.pointCount
    ensures NextSelection(Some(a), [a, b, c]) == Some(b)
    ensures NextSelection(Some(b), [a, b, c]) == Some(a)
  {
    var ps := [a, b, c];
    assert a in ps && b in ps && c in ps;
    assert forall q :: q in ps ==> q == a || q == b || q == c;
  }

  /**
   * A tap that does not cycle takes the first hit, whatever its size: with
   * nothing selected, or a selection that was not hit, a smaller later hit
   * is passed over.
   */
  lemma FirstTapTakesFirstHit(current: Option<Polygon>, possibilities: seq<Polygon>, i: nat)
    requires current.None? || current.value !in possibilities
    requires 0 < i < |possibilities| && possibilities[i].pointCount < possibilities[0].pointCount
    ensures NextSelection(current, possibilities) == Some(possibilities[0])
    ensures NextSelection(current, possibilities).value.pointCount > possibilities[i].pointCount
  {
  }

  // ---- highlighting ----

  /**
   * How a newly created renderer is configured: highlighted when its polygon
   * is the selection, and every polygon is highlighted when nothing is selected.
   */
  function FreshRendererSelected(state: State, polygon: Polygon): (r: bool)
    ensures state.HasSelection() ==> (r <==> state.selection == Some(polygon))
    ensures !state.HasSelection() ==> r
  {
    state.selection == Some(polygon) || !state.HasSelection()
  }

  /** When something is selected, newly created renderers highlight one polygon only. */
  lemma FreshHighlightUnique(state: State, p: Polygon, q: Polygon)
    requires state.HasSelection()
    requires FreshRendererSelected(state, p) && FreshRendererSelected(state, q)
    ensures p == q == state.selection.value
  {
  }
}
