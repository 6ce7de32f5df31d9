/**
 * The catalogue of routes the app loads: for each (colour, count) definition
 * the routes numbered 0 through count, each read from the GPX resource named
 * "wabe <colour name>-strecke <number>", all definitions concatenated in order.
 */
module TrackCatalog {

  import opened Colors
  import Decimal

  /** One route to load: its colour and its number within that colour. */
  datatype Entry = Entry(color: Color, number: nat) {

    /** The name of the GPX resource the route is read from. */
    function Resource(): (r: string) {
      ResourceName(color, number)
    }
  }

  /** The definitions the app ships with. */
  const Definitions: seq<(Color, nat)> := [
    (Red, 4), (Turquoise, 5), (BrightGreen, 7), (Beige, 2),
    (Green, 4), (Purple, 3), (Violet, 4), (Blue, 3),
    (Brown, 4), (Yellow, 4), (Gray, 0), (LightBlue, 4),
    (LightBrown, 5), (Orange, 0), (Pink, 4), (LightPink, 6)
  ]

  /** The GPX resource name of route `number` of colour `color`. */
  function ResourceName(color: Color, number: nat): (r: string) {
    "wabe " + Name(color) + "-strecke " + Decimal.Show(number)
  }

  /** The routes of one definition: numbers 0 through `count`, ascending. */
  function Entries(color: Color, count: nat): (r: seq<Entry>)
    ensures |r| == count + 1
    ensures forall n :: 0 <= n < |r| ==> r[n] == Entry(color, n)
  {
    seq(count + 1, n requires 0 <= n <= count => Entry(color, n))
  }

  /** All routes of `defs`, one definition after the other. */
  function Catalog(defs: seq<(Color, nat)>): (r: seq<Entry>)
    decreases |defs|
  {
    if defs == [] then [] else Entries(defs[0].0, defs[0].1) + Catalog(defs[1..])
  }

  /** The number of routes `defs` names: one more than each definition's count. */
  function TotalRoutes(defs: seq<(Color, nat)>): (n: nat)
    decreases |defs|
  {
    if defs == [] then 0 else defs[0].1 + 1 + TotalRoutes(defs[1..])
  }

  /** Where the routes of definition `i` start in the catalogue. */
  function Offset(defs: seq<(Color, nat)>, i: nat): (n: nat)
    requires i <= |defs|
  {
    TotalRoutes(defs[..i])
  }

  lemma {:induction false} CatalogLength(defs: seq<(Color, nat)>)
    ensures |Catalog(defs)| == TotalRoutes(defs)
    decreases |defs|
  {
    if defs != [] {
      CatalogLength(defs[1..]);
    }
  }

  lemma {:induction false} TotalRoutesAppend(a: seq<(Color, nat)>, b: seq<(Color, nat)>)
    ensures TotalRoutes(a + b) == TotalRoutes(a) + TotalRoutes(b)
    decreases |a|
  {
    if a == [] {
      assert a + b == b;
    } else {
      assert (a + b)[1..] == a[1..] + b;
      TotalRoutesAppend(a[1..], b);
    }
  }

  /** The routes named by four definitions. */
  lemma TotalRoutesFour(a: (Color, nat), b: (Color, nat), c: (Color, nat), e: (Color, nat))
    ensures TotalRoutes([a, b, c, e]) == a.1 + b.1 + c.1 + e.1 + 4
  {
    assert [e][1..] == [];
    assert TotalRoutes([e]) == e.1 + 1;
    assert [c, e][1..] == [e];
    assert TotalRoutes([c, e]) == c.1 + e.1 + 2;
    assert [b, c, e][1..] == [c, e];
    assert TotalRoutes([b, c, e]) == b.1 + c.1 + e.1 + 3;
    assert [a, b, c, e][1..] == [b, c, e];
  }

  /** The routes named by the four definitions from position `k` on. */
  lemma TotalRoutesQuarter(defs: seq<(Color, nat)>, k: nat)
    requires k + 4 <= |defs|
    ensures TotalRoutes(defs[k..k + 4]) == defs[k].1 + defs[k + 1].1 + defs[k + 2].1 + defs[k + 3].1 + 4
  {
    assert defs[k..k + 4] == [defs[k], defs[k + 1], defs[k + 2], defs[k + 3]];
    TotalRoutesFour(defs[k], defs[k + 1], defs[k + 2], defs[k + 3]);
  }

  /** The routes named by sixteen definitions: their counts plus one each. */
  lemma TotalRoutesSixteen(d: seq<(Color, nat)>)
    requires |d| == 16
    ensures TotalRoutes(d) == d[0].1 + d[1].1 + d[2].1 + d[3].1 + d[4].1 + d[5].1 + d[6].1 + d[7].1
                            + d[8].1 + d[9].1 + d[10].1 + d[11].1 + d[12].1 + d[13].1 + d[14].1 + d[15].1 + 16
  {
    assert d == d[0..4] + (d[4..8] + (d[8..12] + d[12..16]));
    TotalRoutesQuarter(d, 0);
    TotalRoutesQuarter(d, 4);
    TotalRoutesQuarter(d, 8);
    TotalRoutesQuarter(d, 12);
    TotalRoutesAppend(d[8..12], d[12..16]);
    TotalRoutesAppend(d[4..8], d[8..12] + d[12..16]);
    TotalRoutesAppend(d[0..4], d[4..8] + (d[8..12] + d[12..16]));
  }

  /**
   * The shipped definitions name 75 routes in all. `defs` is the shipped
   * table, given entry by entry.
   */
  lemma ShippedTotal(defs: seq<(Color, nat)>)
    requires |defs| == |Definitions| && forall k :: 0 <= k < |defs| ==> defs[k] == Definitions[k]
    ensures TotalRoutes(defs) == 75
    ensures |Catalog(defs)| == 75
  {
    TotalRoutesSixteen(defs);
    CatalogLength(defs);
  }

  lemma TotalRoutesSingle(d: (Color, nat))
    ensures TotalRoutes([d]) == d.1 + 1
  {
  }

  /**
   * The catalogue is the definitions' routes laid end to end: the routes of
   * definition `i` occupy the `count + 1` slots starting at `Offset(defs, i)`,
   * in ascending number order, each read from resource
   * "wabe <colour name>-strecke <number>".
   */
  lemma {:induction false} CatalogSegment(defs: seq<(Color, nat)>, i: nat, n: nat)
    requires i < |defs| && n <= defs[i].1
    ensures Offset(defs, i) + n < |Catalog(defs)|
    ensures Catalog(defs)[Offset(defs, i) + n] == Entry(defs[i].0, n)
    decreases i
  {
    CatalogLength(defs);
    TotalRoutesAppend(defs[..i], defs[i..]);
    assert defs[..i] + defs[i..] == defs;
    assert TotalRoutes(defs[i..]) == defs[i].1 + 1 + TotalRoutes(defs[i + 1..]) by {
      assert defs[i..][1..] == defs[i + 1..];
    }
    if i == 0 {
      assert defs[..0] == [];
    } else {
      CatalogSegment(defs[1..], i - 1, n);
      assert defs[1..][i - 1] == defs[i];
      assert defs[..i] == [defs[0]] + defs[1..][..i - 1];
      TotalRoutesAppend([defs[0]], defs[1..][..i - 1]);
      TotalRoutesSingle(defs[0]);
    }
  }

  /** In `w + t`, the character at position `k == |w|` is the first character of `t`. */
  lemma CharAfterPrefix(w: string, t: string, k: nat)
    requires k == |w| && |t| > 0
    ensures (w + t)[k] == t[0]
  {
  }

  /**
   * A letters-only word followed by text starting with '-' splits uniquely:
   * the first '-' marks where the word ends.
   */
  lemma SplitAtDash(w1: string, t1: string, w2: string, t2: string)
    requires IsLowerWord(w1) && IsLowerWord(w2)
    requires |t1| > 0 && t1[0] == '-' && |t2| > 0 && t2[0] == '-'
    requires w1 + t1 == w2 + t2
    ensures w1 == w2 && t1 == t2
  {
    var u := w1 + t1;
    if |w1| < |w2| {
      CharAfterPrefix(w1, t1, |w1|);
      assert false;
    } else if |w2| < |w1| {
      CharAfterPrefix(w2, t2, |w2|);
      assert false;
    }
    assert w1 == u[..|w1|] && w2 == (w2 + t2)[..|w2|];
    assert t1 == u[|w1|..] && t2 == (w2 + t2)[|w2|..];
  }

  lemma DropPrefix(p: string, a: string, b: string)
    requires p + a == p + b
    ensures a == b
  {
    assert a == (p + a)[|p|..];
    assert b == (p + b)[|p|..];
  }

  /**
   * A resource name splits uniquely into its colour word and its number
   * digits: the word is plain letters, so the first '-' ends it.
   */
  lemma ResourceNameSplits(w1: string, d1: string, w2: string, d2: string)
    requires IsLowerWord(w1) && IsLowerWord(w2)
    requires "wabe " + w1 + "-strecke " + d1 == "wabe " + w2 + "-strecke " + d2
    ensures w1 == w2 && d1 == d2
  {
    var t1, t2 := "-strecke " + d1, "-strecke " + d2;
    assert "wabe " + w1 + "-strecke " + d1 == "wabe " + (w1 + t1);
    assert "wabe " + w2 + "-strecke " + d2 == "wabe " + (w2 + t2);
    DropPrefix("wabe ", w1 + t1, w2 + t2);
    SplitAtDash(w1, t1, w2, t2);
    DropPrefix("-strecke ", d1, d2);
  }

  /**
   * Resource names determine the route: different (colour, number) pairs are
   * written to different names.
   */
  lemma ResourceNameInjective(c1: Color, n1: nat, c2: Color, n2: nat)
    requires ResourceName(c1, n1) == ResourceName(c2, n2)
    ensures c1 == c2 && n1 == n2
  {
    ResourceNameSplits(Name(c1), Decimal.Show(n1), Name(c2), Decimal.Show(n2));
    NameInjective(c1, c2);
    Decimal.ShowInjective(n1, n2);
  }

  /** The colours of `defs` are pairwise distinct. */
  predicate DistinctColors(defs: seq<(Color, nat)>) {
    forall i, j :: 0 <= i < j < |defs| ==> defs[i].0 != defs[j].0
  }

  /** When no colour is defined twice, no route appears twice in the catalogue. */
  lemma DistinctEntries(defs: seq<(Color, nat)>, k1: nat, k2: nat)
    requires DistinctColors(defs)
    requires k1 < k2 < |Catalog(defs)|
    ensures Catalog(defs)[k1] != Catalog(defs)[k2]
  {
    var i1, n1 := CatalogPosition(defs, k1);
    var i2, n2 := CatalogPosition(defs, k2);
    CatalogSegment(defs, i1, n1);
    CatalogSegment(defs, i2, n2);
  }

  /** Two routes share a resource name only when they are the same route. */
  lemma ResourceInjective(e1: Entry, e2: Entry)
    ensures e1.Resource() == e2.Resource() ==> e1 == e2
  {
    if e1.Resource() == e2.Resource() {
      ResourceNameInjective(e1.color, e1.number, e2.color, e2.number);
    }
  }

  /**
   * When no colour is defined twice, every route of the catalogue is read
   * from a different GPX resource.
   */
  lemma DistinctResources(defs: seq<(Color, nat)>, k1: nat, k2: nat)
    requires DistinctColors(defs)
    requires k1 < k2 < |Catalog(defs)|
    ensures Catalog(defs)[k1].Resource() != Catalog(defs)[k2].Resource()
  {
    DistinctEntries(defs, k1, k2);
    ResourceInjective(Catalog(defs)[k1], Catalog(defs)[k2]);
  }

  /** Every catalogue position lies inside the segment of one definition. */
  lemma {:induction false} CatalogPosition(defs: seq<(Color, nat)>, k: nat) returns (i: nat, n: nat)
    requires k < |Catalog(defs)|
    ensures i < |defs| && n <= defs[i].1 && k == Offset(defs, i) + n
    decreases |defs|
  {
    CatalogLength(defs);
    var head := defs[0].1 + 1;
    assert Offset(defs, 0) == 0 by { assert defs[..0] == []; }
    if k < head {
      i, n := 0, k;
    } else {
      CatalogLength(defs[1..]);
      var j, m := CatalogPosition(defs[1..], k - head);
      assert defs[..j + 1] == [defs[0]] + defs[1..][..j];
      TotalRoutesAppend([defs[0]], defs[1..][..j]);
      TotalRoutesSingle(defs[0]);
      assert Offset(defs, j + 1) == head + Offset(defs[1..], j);
      assert defs[1..][j] == defs[j + 1];
      i, n := j + 1, m;
    }
  }

  /** The shipped definitions list each colour once, so every route has its own resource. */
  lemma ShippedColorsDistinct()
    ensures DistinctColors(Definitions)
  {
    forall i | 0 <= i < |Definitions|
      ensures Ordinal(Definitions[i].0) == i
    {
    }
  }

  /** The position of each colour in the enumeration. */
  function Ordinal(c: Color): (n: nat) {
    match c
    case Red => 0 case Turquoise => 1 case BrightGreen => 2 case Beige => 3
    case Green => 4 case Purple => 5 case Violet => 6 case Blue => 7
    case Brown => 8 case Yellow => 9 case Gray => 10 case LightBlue => 11
    case LightBrown => 12 case Orange => 13 case Pink => 14 case LightPink => 15
  }
}
