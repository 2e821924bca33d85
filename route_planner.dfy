/** The field-route planner of the sidebar: which wells take part, where the
    route starts, the greedy nearest-neighbour visiting order with the length
    of each leg, the total distance and time, and the Google Maps directions
    link built from the order.

    The great-circle (haversine) distance is a parameter `dist`: every property
    proved here holds for any real-valued distance, so none of it depends on
    trigonometry. */
module RoutePlanner {
  import opened Common

  datatype Point = Point(lat: real, lng: real)

  datatype Well = Well(id: string, name: string, location: Point)

  /** One entry of the suggested order: the well visited and the distance from
      the previous position to it. */
  datatype Stop = Stop(well: Well, distanceFromPrev: real)

  type Distance = (Point, Point) -> real

  // ---------------------------------------------------------------------------
  // Inclusion

  /** The exclusion set after the checkbox of well `id` is toggled. */
  function Toggled(excluded: set<string>, id: string): (r: set<string>)
    ensures id in r <==> id !in excluded
    ensures forall other :: other != id ==> (other in r <==> other in excluded)
  {
    if id in excluded then excluded - {id} else excluded + {id}
  }

  lemma ToggleTwice(excluded: set<string>, id: string)
    ensures Toggled(Toggled(excluded, id), id) == excluded
  {
  }

  /** The wells whose id is not excluded, in their list order. */
  function ActiveWells(wells: seq<Well>, excluded: set<string>): (r: seq<Well>)
    ensures |r| <= |wells|
    ensures forall w :: multiset(r)[w] == if w.id in excluded then 0 else multiset(wells)[w]
    ensures (forall i :: 0 <= i < |wells| ==> wells[i].id !in excluded) ==> r == wells
  {
    if wells == [] then []
    else
      var rest := ActiveWells(wells[1..], excluded);
      assert wells == [wells[0]] + wells[1..];
      if wells[0].id in excluded then rest else [wells[0]] + rest
  }

  /** The filter keeps the list order: filtering a concatenation filters
      each part and keeps the parts in order. */
  lemma {:induction false} ActiveWellsAppend(a: seq<Well>, b: seq<Well>, excluded: set<string>)
    ensures ActiveWells(a + b, excluded) == ActiveWells(a, excluded) + ActiveWells(b, excluded)
  {
    if a == [] {
      assert a + b == b;
    } else {
      assert (a + b)[1..] == a[1..] + b;
      ActiveWellsAppend(a[1..], b, excluded);
    }
  }

  // ---------------------------------------------------------------------------
  // Start point

  function Sum(xs: seq<real>): real {
    if xs == [] then 0.0 else xs[0] + Sum(xs[1..])
  }

  function Lats(ws: seq<Well>): (r: seq<real>)
    ensures |r| == |ws| && forall i :: 0 <= i < |ws| ==> r[i] == ws[i].location.lat
  {
    seq(|ws|, i requires 0 <= i < |ws| => ws[i].location.lat)
  }

  function Lngs(ws: seq<Well>): (r: seq<real>)
    ensures |r| == |ws| && forall i :: 0 <= i < |ws| ==> r[i] == ws[i].location.lng
  {
    seq(|ws|, i requires 0 <= i < |ws| => ws[i].location.lng)
  }

  /** `x` added `n` times. */
  function Times(x: real, n: nat): real {
    if n == 0 then 0.0 else x + Times(x, n - 1)
  }

  lemma {:induction false} TimesMonotone(a: real, b: real, n: nat)
    requires a <= b
    ensures Times(a, n) <= Times(b, n)
  {
    if n > 0 {
      TimesMonotone(a, b, n - 1);
    }
  }

  lemma {:induction false} TimesIsProduct(x: real, n: nat)
    ensures Times(x, n) == x * (n as real)
  {
    if n > 0 {
      TimesIsProduct(x, n - 1);
      assert x * (n as real) == x + x * ((n - 1) as real);
    }
  }

  /** Some element is at most the mean, and some element is at least the mean. */
  lemma {:induction false} MeanWithinRange(xs: seq<real>)
    requires xs != []
    ensures exists i :: 0 <= i < |xs| && Times(xs[i], |xs|) <= Sum(xs)
    ensures exists i :: 0 <= i < |xs| && Times(xs[i], |xs|) >= Sum(xs)
  {
    if |xs| == 1 {
      assert Times(xs[0], 1) == Sum(xs);
    } else {
      var rest := xs[1..];
      var m := |rest|;
      MeanWithinRange(rest);
      var lo :| 0 <= lo < m && Times(rest[lo], m) <= Sum(rest);
      var hi :| 0 <= hi < m && Times(rest[hi], m) >= Sum(rest);
      assert Sum(xs) == xs[0] + Sum(rest);
      assert xs[lo + 1] == rest[lo] && xs[hi + 1] == rest[hi];
      if xs[0] <= rest[lo] {
        TimesMonotone(xs[0], rest[lo], m);
        assert Times(xs[0], |xs|) <= Sum(xs);
      } else {
        TimesMonotone(rest[lo], xs[0], m);
        assert Times(xs[lo + 1], |xs|) <= Sum(xs);
      }
      if rest[hi] <= xs[0] {
        TimesMonotone(rest[hi], xs[0], m);
        assert Times(xs[0], |xs|) >= Sum(xs);
      } else {
        TimesMonotone(xs[0], rest[hi], m);
        assert Times(xs[hi + 1], |xs|) >= Sum(xs);
      }
    }
  }

  lemma TimesBelow(x: real, s: real, n: nat)
    requires n > 0 && Times(x, n) <= s
    ensures x <= s / (n as real)
  {
    TimesIsProduct(x, n);
  }

  lemma TimesAbove(x: real, s: real, n: nat)
    requires n > 0 && Times(x, n) >= s
    ensures x >= s / (n as real)
  {
    TimesIsProduct(x, n);
  }

  lemma MeanBounds(xs: seq<real>)
    requires xs != []
    ensures exists i :: 0 <= i < |xs| && xs[i] <= Sum(xs) / (|xs| as real)
    ensures exists i :: 0 <= i < |xs| && xs[i] >= Sum(xs) / (|xs| as real)
    ensures |xs| == 1 ==> Sum(xs) / (|xs| as real) == xs[0]
  {
    var n := |xs|;
    MeanWithinRange(xs);
    var a :| 0 <= a < n && Times(xs[a], n) <= Sum(xs);
    var b :| 0 <= b < n && Times(xs[b], n) >= Sum(xs);
    TimesBelow(xs[a], Sum(xs), n);
    TimesAbove(xs[b], Sum(xs), n);
    if n == 1 {
      assert Sum(xs) == xs[0];
    }
  }

  /** The arithmetic mean of a non-empty list: it is neither below every
      element nor above every element. */
  function Mean(xs: seq<real>): (r: real)
    requires xs != []
    ensures exists i :: 0 <= i < |xs| && xs[i] <= r
    ensures exists i :: 0 <= i < |xs| && xs[i] >= r
    ensures |xs| == 1 ==> r == xs[0]
  {
    MeanBounds(xs);
    Sum(xs) / (|xs| as real)
  }

  /** The centroid of a non-empty list of wells: the mean latitude and the
      mean longitude, each within the range of the wells' coordinates. */
  function Centroid(ws: seq<Well>): (c: Point)
    requires ws != []
    ensures exists i :: 0 <= i < |ws| && ws[i].location.lat <= c.lat
    ensures exists i :: 0 <= i < |ws| && ws[i].location.lat >= c.lat
    ensures exists i :: 0 <= i < |ws| && ws[i].location.lng <= c.lng
    ensures exists i :: 0 <= i < |ws| && ws[i].location.lng >= c.lng
    ensures |ws| == 1 ==> c == ws[0].location
  {
    Point(Mean(Lats(ws)), Mean(Lngs(ws)))
  }

  /** The device position when it is known, else the centroid of the wells. */
  function StartPoint(position: Option<Point>, active: seq<Well>): (p: Point)
    requires position.Some? || active != []
    ensures position.Some? ==> p == position.value
    ensures position.None? ==> p == Centroid(active)
  {
    if position.Some? then position.value else Centroid(active)
  }

  // ---------------------------------------------------------------------------
  // Greedy order

  /** The index the scan over `rem` settles on: the nearest well to `from`,
      and among equally near wells the first, because a later well replaces
      the best so far only when it is strictly nearer. */
  function NearestIndex(dist: Distance, from: Point, rem: seq<Well>): (k: nat)
    requires rem != []
    ensures k < |rem|
    ensures forall j :: 0 <= j < |rem| ==> dist(from, rem[k].location) <= dist(from, rem[j].location)
    ensures forall j :: 0 <= j < k ==> dist(from, rem[j].location) > dist(from, rem[k].location)
  {
    if |rem| == 1 then 0
    else
      var k := NearestIndex(dist, from, rem[..|rem| - 1]);
      if dist(from, rem[|rem| - 1].location) < dist(from, rem[k].location) then |rem| - 1 else k
  }

  /** `remaining.splice(k, 1)`. */
  function RemoveAt(s: seq<Well>, k: nat): (r: seq<Well>)
    requires k < |s|
    ensures |r| == |s| - 1
    ensures multiset(r) == multiset(s) - multiset{s[k]}
  {
    assert s == s[..k] + [s[k]] + s[k + 1..];
    s[..k] + s[k + 1..]
  }

  /** The route that repeatedly moves to the nearest remaining well. */
  function Greedy(dist: Distance, from: Point, rem: seq<Well>): (r: seq<Stop>)
    ensures |r| == |rem|
    decreases |rem|
  {
    if rem == [] then []
    else
      var k := NearestIndex(dist, from, rem);
      var next := rem[k];
      var rest := RemoveAt(rem, k);
      [Stop(next, dist(from, next.location))] + Greedy(dist, next.location, rest)
  }

  /** The wells of a route, in visiting order. */
  function Visited(route: seq<Stop>): (ws: seq<Well>)
    ensures |ws| == |route| && forall i :: 0 <= i < |route| ==> ws[i] == route[i].well
  {
    if route == [] then [] else [route[0].well] + Visited(route[1..])
  }

  /** Where the leg to stop `i` starts: the start point, then each visited well. */
  function LegStart(from: Point, route: seq<Stop>, i: nat): Point
    requires i < |route|
  {
    if i == 0 then from else route[i - 1].well.location
  }

  /** The plan of the route card: nothing when every well is excluded, else
      the greedy route over the included wells from the start point. */
  function Plan(dist: Distance, wells: seq<Well>, excluded: set<string>, position: Option<Point>): (r: seq<Stop>)
    ensures |r| == |ActiveWells(wells, excluded)| && |r| <= |wells|
    ensures r == [] <==> forall i :: 0 <= i < |wells| ==> wells[i].id in excluded
  {
    var active := ActiveWells(wells, excluded);
    if active == [] then [] else Greedy(dist, StartPoint(position, active), active)
  }

  /** The greedy route visits every remaining well exactly as often as it
      occurs, and nothing else. */
  lemma {:induction false} GreedyIsPermutation(dist: Distance, from: Point, rem: seq<Well>)
    ensures |Greedy(dist, from, rem)| == |rem|
    ensures multiset(Visited(Greedy(dist, from, rem))) == multiset(rem)
    decreases |rem|
  {
    if rem != [] {
      var k := NearestIndex(dist, from, rem);
      var next := rem[k];
      var rest := RemoveAt(rem, k);
      var tail := Greedy(dist, next.location, rest);
      GreedyIsPermutation(dist, next.location, rest);
      var route := Greedy(dist, from, rem);
      assert route == [Stop(next, dist(from, next.location))] + tail;
      assert route[1..] == tail;
      assert next in multiset(rem);
      calc {
        multiset(Visited(route));
        multiset{next} + multiset(Visited(tail));
        multiset{next} + (multiset(rem) - multiset{next});
        multiset(rem);
      }
    }
  }

  lemma AppendAssoc<T>(a: seq<T>, b: seq<T>, c: seq<T>)
    ensures a + (b + c) == (a + b) + c
  {
  }

  lemma PrefixOfCons<T>(x: T, s: seq<T>, i: nat)
    requires 1 <= i <= |s| + 1
    ensures ([x] + s)[..i] == [x] + s[..i - 1]
  {
  }

  /** `w` is at least as near to `p` as every well of `pool`. */
  ghost predicate NearestAmong(dist: Distance, p: Point, w: Well, pool: multiset<Well>) {
    forall v | v in pool :: dist(p, w.location) <= dist(p, v.location)
  }

  /** Each leg's recorded distance is the distance from the previous position
      to the stop. */
  lemma {:induction false} GreedyLegs(dist: Distance, from: Point, rem: seq<Well>, i: nat)
    requires i < |Greedy(dist, from, rem)|
    ensures var route := Greedy(dist, from, rem);
      route[i].distanceFromPrev == dist(LegStart(from, route, i), route[i].well.location)
    decreases |rem|
  {
    var route := Greedy(dist, from, rem);
    var k := NearestIndex(dist, from, rem);
    var next := rem[k];
    var tail := Greedy(dist, next.location, RemoveAt(rem, k));
    assert route == [Stop(next, dist(from, next.location))] + tail;
    if i > 0 {
      GreedyLegs(dist, next.location, RemoveAt(rem, k), i - 1);
      assert route[i] == tail[i - 1];
      assert LegStart(from, route, i) == LegStart(next.location, tail, i - 1);
    }
  }

  lemma NearestIndexIsNearest(dist: Distance, from: Point, rem: seq<Well>)
    requires rem != []
    ensures NearestAmong(dist, from, rem[NearestIndex(dist, from, rem)], multiset(rem))
  {
    var k := NearestIndex(dist, from, rem);
    forall v | v in multiset(rem)
      ensures dist(from, rem[k].location) <= dist(from, v.location)
    {
      var j :| 0 <= j < |rem| && rem[j] == v;
    }
  }

  /** Each stop is nearest to the previous position among the wells not yet
      visited when it is chosen. */
  lemma {:induction false} GreedyIsNearest(dist: Distance, from: Point, rem: seq<Well>, i: nat)
    requires i < |Greedy(dist, from, rem)|
    ensures var route := Greedy(dist, from, rem);
      NearestAmong(dist, LegStart(from, route, i), route[i].well, multiset(rem) - multiset(Visited(route)[..i]))
    decreases |rem|
  {
    var route := Greedy(dist, from, rem);
    var k := NearestIndex(dist, from, rem);
    var next := rem[k];
    var rest := RemoveAt(rem, k);
    var tail := Greedy(dist, next.location, rest);
    GreedyStep(dist, from, rem);
    assert route == [Stop(next, dist(from, next.location))] + tail;
    if i == 0 {
      assert Visited(route)[..0] == [];
      NearestIndexIsNearest(dist, from, rem);
    } else {
      GreedyIsNearest(dist, next.location, rest, i - 1);
      assert route[1..] == tail;
      assert route[i] == tail[i - 1];
      assert LegStart(from, route, i) == LegStart(next.location, tail, i - 1);
      assert Visited(route) == [next] + Visited(tail);
      PrefixOfCons(next, Visited(tail), i);
      MultisetMinusCons(multiset(rem), next, Visited(tail)[..i - 1]);
    }
  }

  lemma MultisetMinusCons<T>(m: multiset<T>, x: T, d: seq<T>)
    ensures m - multiset([x] + d) == (m - multiset{x}) - multiset(d)
  {
    assert multiset([x] + d) == multiset{x} + multiset(d);
  }

  /** With one well the route is that well, reached from the start point. */
  lemma SingleWellRoute(dist: Distance, from: Point, w: Well)
    ensures Greedy(dist, from, [w]) == [Stop(w, dist(from, w.location))]
  {
    assert RemoveAt([w], 0) == [];
  }

  /** The plan visits exactly the included wells: each one as often as it is
      listed, no excluded well at all; the first leg starts at the device
      position when it is known. */
  lemma PlanVisitsIncludedWells(dist: Distance, wells: seq<Well>, excluded: set<string>, position: Option<Point>)
    ensures var plan := Plan(dist, wells, excluded, position);
      && |plan| == |ActiveWells(wells, excluded)|
      && (forall w :: multiset(Visited(plan))[w] == if w.id in excluded then 0 else multiset(wells)[w])
      && (plan != [] && position.Some? ==>
            plan[0].distanceFromPrev == dist(position.value, plan[0].well.location))
  {
    var active := ActiveWells(wells, excluded);
    if active != [] {
      GreedyIsPermutation(dist, StartPoint(position, active), active);
      GreedyLegs(dist, StartPoint(position, active), active, 0);
    }
  }

  // ---------------------------------------------------------------------------
  // The route as the planner computes it

  /** `routeOrder`: the included wells are copied into `remaining`; each round
      scans `remaining` for the nearest well to the current position, splices
      it out, records the leg and moves there. */
  method RouteOrder(dist: Distance, wells: seq<Well>, excluded: set<string>, position: Option<Point>)
    returns (order: seq<Stop>)
    ensures order == Plan(dist, wells, excluded, position)
  {
    var active := ActiveWells(wells, excluded);
    if |active| == 0 {
      return [];
    }
    var remaining := active;
    var start: Point;
    if position.Some? {
      start := position.value;
    } else {
      start := Centroid(remaining);
    }
    order := VisitGreedily(dist, start, remaining);
  }

  /** The rounds of `routeOrder` from the start point. */
  method VisitGreedily(dist: Distance, start: Point, active: seq<Well>) returns (order: seq<Stop>)
    ensures order == Greedy(dist, start, active)
  {
    var remaining := active;
    var current := start;
    order := [];
    while |remaining| > 0
      invariant order + Greedy(dist, current, remaining) == Greedy(dist, start, active)
      decreases |remaining|
    {
      var bestIdx, bestDist := ScanNearest(dist, current, remaining);
      var next := remaining[bestIdx];
      var legDist := if bestDist.None? then 0.0 else bestDist.value;
      GreedyAdvance(dist, current, remaining, order, bestIdx, legDist);
      remaining := remaining[..bestIdx] + remaining[bestIdx + 1..];
      order := order + [Stop(next, legDist)];
      current := next.location;
    }
  }

  /** One round: moving the nearest well with its leg from the rest of the
      route to the order keeps the whole route. */
  lemma GreedyAdvance(dist: Distance, from: Point, rem: seq<Well>, order: seq<Stop>, k: nat, leg: real)
    requires rem != [] && k == NearestIndex(dist, from, rem) && leg == dist(from, rem[k].location)
    ensures order + Greedy(dist, from, rem)
            == (order + [Stop(rem[k], leg)]) + Greedy(dist, rem[k].location, rem[..k] + rem[k + 1..])
  {
    GreedyStep(dist, from, rem);
    AppendAssoc(order, [Stop(rem[k], leg)], Greedy(dist, rem[k].location, rem[..k] + rem[k + 1..]));
  }

  lemma GreedyStep(dist: Distance, from: Point, rem: seq<Well>)
    requires rem != []
    ensures var k := NearestIndex(dist, from, rem);
      Greedy(dist, from, rem)
      == [Stop(rem[k], dist(from, rem[k].location))] + Greedy(dist, rem[k].location, rem[..k] + rem[k + 1..])
  {
    var k := NearestIndex(dist, from, rem);
    assert RemoveAt(rem, k) == rem[..k] + rem[k + 1..];
  }

  /** The inner scan of `routeOrder`: the best index starts at 0 and the best
      distance at Infinity (`None`); a well replaces the best so far only when
      it is strictly nearer. */
  method ScanNearest(dist: Distance, current: Point, remaining: seq<Well>) returns (bestIdx: nat, bestDist: Option<real>)
    requires remaining != []
    ensures bestIdx == NearestIndex(dist, current, remaining)
    ensures bestDist == Some(dist(current, remaining[bestIdx].location))
  {
    bestIdx := 0;
    bestDist := None;
    for i := 0 to |remaining|
      invariant i == 0 ==> bestIdx == 0 && bestDist.None?
      invariant i > 0 ==> bestIdx == NearestIndex(dist, current, remaining[..i])
                          && bestDist == Some(dist(current, remaining[bestIdx].location))
    {
      var d := dist(current, remaining[i].location);
      assert remaining[..i + 1][..i] == remaining[..i];
      if bestDist.None? || d < bestDist.value {
        bestDist := Some(d);
        bestIdx := i;
      }
    }
    assert remaining[..|remaining|] == remaining;
  }

  /** `distances`: with a known position, each included well and its distance
      from the position; without one, nothing. */
  function DistancesFromPosition(dist: Distance, active: seq<Well>, position: Option<Point>): (r: seq<(Well, real)>)
    ensures position.None? ==> r == []
    ensures position.Some? ==> |r| == |active| && forall i :: 0 <= i < |active| ==>
              r[i] == (active[i], dist(position.value, active[i].location))
  {
    if position.None? then []
    else seq(|active|, i requires 0 <= i < |active| => (active[i], dist(position.value, active[i].location)))
  }

  // ---------------------------------------------------------------------------
  // Totals

  /** The sum of the legs of a route. */
  function TotalDistance(order: seq<Stop>): (total: real)
    ensures order == [] ==> total == 0.0
    ensures (forall i :: 0 <= i < |order| ==> order[i].distanceFromPrev >= 0.0) ==> total >= 0.0
    ensures |order| == 1 ==> total == order[0].distanceFromPrev
  {
    if order == [] then 0.0 else order[0].distanceFromPrev + TotalDistance(order[1..])
  }

  /** The length of the path from `from` through `ws` in order. */
  function PathLength(dist: Distance, from: Point, ws: seq<Well>): real
    decreases ws
  {
    if ws == [] then 0.0 else dist(from, ws[0].location) + PathLength(dist, ws[0].location, ws[1..])
  }

  /** The total distance of the greedy route is the length of the path it
      describes; with non-negative distances it is non-negative. */
  lemma {:induction false} GreedyTotalIsPathLength(dist: Distance, from: Point, rem: seq<Well>)
    ensures TotalDistance(Greedy(dist, from, rem)) == PathLength(dist, from, Visited(Greedy(dist, from, rem)))
    ensures (forall a, b :: dist(a, b) >= 0.0) ==> TotalDistance(Greedy(dist, from, rem)) >= 0.0
    decreases |rem|
  {
    if rem != [] {
      var k := NearestIndex(dist, from, rem);
      var next := rem[k];
      var rest := rem[..k] + rem[k + 1..];
      GreedyStep(dist, from, rem);
      var tail := Greedy(dist, next.location, rest);
      GreedyTotalIsPathLength(dist, next.location, rest);
      var route := Greedy(dist, from, rem);
      assert route == [Stop(next, dist(from, next.location))] + tail;
      assert route[1..] == tail;
      assert Visited(route)[1..] == Visited(tail);
    }
  }

  /** Estimated minutes at an average speed of 40 km/h. */
  function EstimatedMinutes(totalKm: real): (minutes: real)
    ensures minutes * 40.0 == totalKm * 60.0
    ensures totalKm >= 0.0 ==> minutes >= 0.0
    ensures totalKm == 0.0 ==> minutes == 0.0
  {
    (totalKm / 40.0) * 60.0
  }

  /** With every well excluded there is no route, no distance and no time. */
  lemma EmptyPlan(dist: Distance, wells: seq<Well>, excluded: set<string>, position: Option<Point>)
    requires forall i :: 0 <= i < |wells| ==> wells[i].id in excluded
    ensures Plan(dist, wells, excluded, position) == []
    ensures TotalDistance(Plan(dist, wells, excluded, position)) == 0.0
    ensures EstimatedMinutes(TotalDistance(Plan(dist, wells, excluded, position))) == 0.0
  {
  }

  // ---------------------------------------------------------------------------
  // Google Maps directions link

  /** The parts of a directions link: an origin only when the position is
      known, the last stop as destination, the earlier stops as waypoints. */
  datatype DirectionsLink = DirectionsLink(origin: Option<string>, destination: string, waypoints: Option<string>)

  /** `${lat},${lng}`, with `num` the JavaScript number-to-text conversion. */
  function CoordText(num: real -> string, p: Point): (t: string)
    ensures t != []
  {
    num(p.lat) + "," + num(p.lng)
  }

  /** `wells.find(wl => wl.name === name)`. */
  function FindByName(wells: seq<Well>, name: string): (r: Option<Well>)
    ensures r.Some? ==> r.value in wells && r.value.name == name
    ensures r.None? ==> forall i :: 0 <= i < |wells| ==> wells[i].name != name
    ensures r.Some? ==> exists i :: 0 <= i < |wells| && wells[i] == r.value
                          && forall j :: 0 <= j < i ==> wells[j].name != name
  {
    if wells == [] then None
    else if wells[0].name == name then Some(wells[0])
    else
      var r := FindByName(wells[1..], name);
      assert forall i :: 1 <= i < |wells| ==> wells[i] == wells[1..][i - 1];
      r
  }

  /** The coordinate list as the route card builds it: each stop's name is
      looked up again in the full well list and the first well carrying that
      name supplies the coordinates. */
  function CoordsByName(num: real -> string, wells: seq<Well>, order: seq<Stop>): (r: seq<string>)
    ensures |r| <= |order|
    ensures (forall i :: 0 <= i < |order| ==> order[i].well in wells) ==> |r| == |order|
  {
    if order == [] then []
    else
      var found := FindByName(wells, order[0].well.name);
      (if found.Some? then [CoordText(num, found.value.location)] else []) + CoordsByName(num, wells, order[1..])
  }

  /** The coordinates of the wells the route actually visits. */
  function StopCoords(num: real -> string, order: seq<Stop>): (r: seq<string>)
    ensures |r| == |order| && forall i :: 0 <= i < |order| ==> r[i] == CoordText(num, order[i].well.location)
  {
    seq(|order|, i requires 0 <= i < |order| => CoordText(num, order[i].well.location))
  }

  /** The link for a coordinate list: none for an empty list; the waypoints
      are omitted when their joined text is empty. */
  function LinkFromCoords(num: real -> string, coords: seq<string>, position: Option<Point>): (r: Option<DirectionsLink>)
    ensures r.None? <==> coords == []
    ensures r.Some? ==> r.value.destination == coords[|coords| - 1]
    ensures r.Some? && |coords| == 1 ==> r.value.waypoints.None?
    ensures r.Some? && r.value.waypoints.Some? ==> r.value.waypoints.value == Join(coords[..|coords| - 1], "|")
    ensures r.Some? ==> (r.value.origin.Some? <==> position.Some?)
  {
    if coords == [] then None
    else
      var destination := coords[|coords| - 1];
      var waypoints := Join(coords[..|coords| - 1], "|");
      var origin := if position.Some? then Some(CoordText(num, position.value)) else None;
      Some(DirectionsLink(origin, destination, if waypoints == "" then None else Some(waypoints)))
  }

  /** The directions link as the route card computes it. */
  function DirectionsAsWritten(num: real -> string, wells: seq<Well>, order: seq<Stop>, position: Option<Point>)
    : (r: Option<DirectionsLink>)
    ensures order == [] ==> r.None?
    ensures (forall i :: 0 <= i < |order| ==> order[i].well in wells) ==> (r.None? <==> order == [])
    ensures r.Some? ==> (r.value.origin.Some? <==> position.Some?)
  {
    if order == [] then None else LinkFromCoords(num, CoordsByName(num, wells, order), position)
  }

  /** The directions link over the coordinates of the visited wells: none for
      an empty route; the last stop is the destination; the earlier stops, in
      route order, are the waypoints, left out for a single stop; the origin
      is present exactly when the position is known. */
  function Directions(num: real -> string, order: seq<Stop>, position: Option<Point>): (r: Option<DirectionsLink>)
    ensures r.None? <==> order == []
    ensures r.Some? ==> r.value.destination == CoordText(num, order[|order| - 1].well.location)
    ensures r.Some? ==> (r.value.waypoints.None? <==> |order| == 1)
    ensures r.Some? && |order| > 1 ==> r.value.waypoints == Some(Join(StopCoords(num, order)[..|order| - 1], "|"))
    ensures r.Some? ==> (r.value.origin.Some? <==> position.Some?)
    ensures r.Some? && position.Some? ==> r.value.origin == Some(CoordText(num, position.value))
  {
    if order == [] then None else LinkFromCoords(num, StopCoords(num, order), position)
  }

  const MapsBase: string := "https://www.google.com/maps/dir/?api=1"

  /** The URL text of a link, with `encode` standing for `encodeURIComponent`. */
  function DirectionsUrl(link: DirectionsLink, encode: string -> string): (url: string)
    ensures url == MapsBase
                  + (if link.origin.Some? then "&origin=" + encode(link.origin.value) else "")
                  + "&destination=" + encode(link.destination)
                  + (if link.waypoints.Some? then "&waypoints=" + encode(link.waypoints.value) else "")
                  + "&travelmode=driving"
    ensures |url| >= |MapsBase| && url[..|MapsBase|] == MapsBase
  {
    var dest := "&destination=" + encode(link.destination);
    var tail := "&travelmode=driving";
    if link.origin.Some? then
      if link.waypoints.Some? then MapsBase + "&origin=" + encode(link.origin.value) + dest + "&waypoints=" + encode(link.waypoints.value) + tail
      else MapsBase + "&origin=" + encode(link.origin.value) + dest + tail
    else
      if link.waypoints.Some? then MapsBase + dest + "&waypoints=" + encode(link.waypoints.value) + tail
      else MapsBase + dest + tail
  }

  /** Two wells share a name; the first is excluded and the second is the only
      one on the route. The link the route card builds sends the agent to the
      excluded well, because it looks the stop up by name; the link over the
      visited wells points at the well on the route. */
  lemma DuplicateNameLinksWrongWell(dist: Distance, num: real -> string)
    ensures var first := Well("w1", "Well 1", Point(0.0, 0.0));
      var second := Well("w2", "Well 1", Point(1.0, 1.0));
      var order := Plan(dist, [first, second], {"w1"}, None);
      && Visited(order) == [second]
      && DirectionsAsWritten(num, [first, second], order, None)
         == Some(DirectionsLink(None, CoordText(num, first.location), None))
      && Directions(num, order, None)
         == Some(DirectionsLink(None, CoordText(num, second.location), None))
  {
    var first := Well("w1", "Well 1", Point(0.0, 0.0));
    var second := Well("w2", "Well 1", Point(1.0, 1.0));
    var order := Plan(dist, [first, second], {"w1"}, None);
    PlanOfSecondWell(dist, first, second);
    assert Visited(order) == [second];
    LinkOfOneStop(num, [first, second], order[0], first);
  }

  lemma PlanOfSecondWell(dist: Distance, first: Well, second: Well)
    requires first.id != second.id
    ensures Plan(dist, [first, second], {first.id}, None)
            == [Stop(second, dist(second.location, second.location))]
  {
    assert ActiveWells([second], {first.id}) == [second];
    assert ActiveWells([first, second], {first.id}) == [second];
    SingleWellRoute(dist, second.location, second);
  }

  lemma LinkOfOneStop(num: real -> string, wells: seq<Well>, stop: Stop, found: Well)
    requires FindByName(wells, stop.well.name) == Some(found)
    ensures DirectionsAsWritten(num, wells, [stop], None)
            == Some(DirectionsLink(None, CoordText(num, found.location), None))
    ensures Directions(num, [stop], None)
            == Some(DirectionsLink(None, CoordText(num, stop.well.location), None))
  {
    assert CoordsByName(num, wells, [stop]) == [CoordText(num, found.location)];
  }

  /** With distinct names, looking a listed well up by its name finds it. */
  lemma {:induction false} FindByUniqueName(wells: seq<Well>, w: Well)
    requires forall i, j :: 0 <= i < j < |wells| ==> wells[i].name != wells[j].name
    requires w in wells
    ensures FindByName(wells, w.name) == Some(w)
  {
    if wells[0] != w {
      assert w in wells[1..];
      FindByUniqueName(wells[1..], w);
    }
  }

  /** When no two wells share a name, the route card's link is the link over
      the visited wells. */
  lemma {:induction false} DirectionsAgreeOnUniqueNames(num: real -> string, wells: seq<Well>, order: seq<Stop>, position: Option<Point>)
    requires forall i, j :: 0 <= i < j < |wells| ==> wells[i].name != wells[j].name
    requires forall i :: 0 <= i < |order| ==> order[i].well in wells
    ensures DirectionsAsWritten(num, wells, order, position) == Directions(num, order, position)
  {
    CoordsAgreeOnUniqueNames(num, wells, order);
  }

  lemma {:induction false} CoordsAgreeOnUniqueNames(num: real -> string, wells: seq<Well>, order: seq<Stop>)
    requires forall i, j :: 0 <= i < j < |wells| ==> wells[i].name != wells[j].name
    requires forall i :: 0 <= i < |order| ==> order[i].well in wells
    ensures CoordsByName(num, wells, order) == StopCoords(num, order)
  {
    if order != [] {
      FindByUniqueName(wells, order[0].well);
      CoordsAgreeOnUniqueNames(num, wells, order[1..]);
      assert StopCoords(num, order) == [CoordText(num, order[0].well.location)] + StopCoords(num, order[1..]);
    }
  }
}
