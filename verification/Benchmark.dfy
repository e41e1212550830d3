/** The cost-versus-quality comparison of evaluation/benchmark.py: the Pareto frontier of a run and
    the recommendations filtered from it. */
module Benchmark {
  import opened Wrappers

  datatype Summary = Summary(averageScores: map<string, real>, sampleCount: nat, totalCost: real)

  datatype Point = Point(modelId: string, quality: real, cost: real, optimal: bool)

  // ---------------------------------------------------------------------
  // Domination
  // ---------------------------------------------------------------------

  predicate AtLeastAsGood(o: Point, p: Point) {
    o.quality >= p.quality && o.cost <= p.cost
  }

  predicate Dominates(o: Point, p: Point) {
    AtLeastAsGood(o, p) && (o.quality > p.quality || o.cost < p.cost)
  }

  /** The mark the frontier sets: no point of another model dominates `p`. */
  predicate OnFrontier(points: seq<Point>, p: Point) {
    forall o :: o in points && o.modelId != p.modelId ==> !Dominates(o, p)
  }

  /** Points of the same model are the same, as they are read off the same summary. */
  ghost predicate ModelsConsistent(points: seq<Point>) {
    forall p, q :: p in points && q in points && p.modelId == q.modelId ==> p.quality == q.quality && p.cost == q.cost
  }

  /** Best quality first, and the cheaper among equals. */
  predicate Beats(o: Point, p: Point) {
    o.quality > p.quality || (o.quality == p.quality && o.cost <= p.cost)
  }

  lemma {:induction false} BestExists(points: seq<Point>) returns (best: Point)
    requires points != []
    ensures best in points && forall p :: p in points ==> Beats(best, p)
    decreases |points|
  {
    best := points[0];
    if |points| > 1 {
      var other := BestExists(points[1..]);
      assert points == [points[0]] + points[1..];
      if !Beats(best, other) { best := other; }
    }
  }

  function AsGoodAs(points: seq<Point>, p: Point): (r: seq<Point>)
    ensures forall o :: o in r <==> o in points && AtLeastAsGood(o, p)
  {
    if points == [] then []
    else if AtLeastAsGood(points[0], p) then [points[0]] + AsGoodAs(points[1..], p)
    else AsGoodAs(points[1..], p)
  }

  /** Every point has a frontier point at least as good in both respects. */
  lemma FrontierCovers(points: seq<Point>, p: Point) returns (f: Point)
    requires p in points && ModelsConsistent(points)
    ensures f in points && OnFrontier(points, f) && AtLeastAsGood(f, p)
  {
    assert p in AsGoodAs(points, p);
    f := BestExists(AsGoodAs(points, p));
    forall o | o in points ensures !Dominates(o, f) {
      assert AtLeastAsGood(o, f) ==> o in AsGoodAs(points, p);
    }
  }

  /** Whoever is on the frontier has paid for its place: of two of its points either both values are
      equal, or the one of better quality costs more. */
  lemma FrontierIsStrict(points: seq<Point>, p: Point, q: Point)
    requires p in points && q in points && ModelsConsistent(points)
    requires OnFrontier(points, p) && OnFrontier(points, q)
    ensures (p.quality == q.quality && p.cost == q.cost)
      || (p.quality > q.quality && p.cost > q.cost) || (p.quality < q.quality && p.cost < q.cost)
  {
  }

  /** Whoever is not is beaten: some point of the frontier is at least as good in both values and
      better in one. */
  lemma OffFrontierIsBeaten(points: seq<Point>, p: Point) returns (f: Point)
    requires p in points && ModelsConsistent(points) && !OnFrontier(points, p)
    ensures f in points && OnFrontier(points, f)
    ensures f.quality >= p.quality && f.cost <= p.cost && (f.quality > p.quality || f.cost < p.cost)
  {
    var o :| o in points && o.modelId != p.modelId && Dominates(o, p);
    f := FrontierCovers(points, o);
  }

  // ---------------------------------------------------------------------
  // The frontier of a run
  // ---------------------------------------------------------------------

  /** A model without results counts as quality 0 at cost 0. */
  function PointOf(summary: map<string, Summary>, metric: string, id: string): Point {
    if id !in summary then Point(id, 0.0, 0.0, false)
    else
      var s := summary[id];
      var samples := if s.sampleCount == 0 then 1 else s.sampleCount;
      var quality := if metric in s.averageScores then s.averageScores[metric] else 0.0;
      Point(id, quality, s.totalCost / samples as real, false)
  }

  /** The cost of a point is per sample, and its quality the average of the metric; what was not
      measured is 0. */
  lemma PointMeans(summary: map<string, Summary>, metric: string, id: string)
    ensures var p := PointOf(summary, metric, id);
      && p.modelId == id && !p.optimal
      && (id !in summary ==> p.quality == 0.0 && p.cost == 0.0)
      && (id in summary && summary[id].sampleCount > 0 ==>
            p.cost * summary[id].sampleCount as real == summary[id].totalCost)
      && (id in summary && summary[id].sampleCount == 0 ==> p.cost == summary[id].totalCost)
      && (id in summary && metric in summary[id].averageScores ==> p.quality == summary[id].averageScores[metric])
      && (id in summary && metric !in summary[id].averageScores ==> p.quality == 0.0)
  {
  }

  ghost predicate SortedByQuality(points: seq<Point>) {
    forall i, j :: 0 <= i < j < |points| ==> points[i].quality >= points[j].quality
  }

  /** A stable sort by descending quality. */
  function ByQuality(points: seq<Point>): seq<Point> {
    if points == [] then [] else Inserted(points[0], ByQuality(points[1..]))
  }

  function Inserted(p: Point, sorted: seq<Point>): seq<Point> {
    if sorted == [] || p.quality >= sorted[0].quality then [p] + sorted
    else [sorted[0]] + Inserted(p, sorted[1..])
  }

  lemma {:induction false} InsertedContents(p: Point, sorted: seq<Point>)
    ensures multiset(Inserted(p, sorted)) == multiset{p} + multiset(sorted)
  {
    if !(sorted == [] || p.quality >= sorted[0].quality) {
      InsertedContents(p, sorted[1..]);
      assert sorted == [sorted[0]] + sorted[1..];
    }
  }

  lemma {:induction false} InsertedSorted(p: Point, sorted: seq<Point>)
    requires SortedByQuality(sorted)
    ensures SortedByQuality(Inserted(p, sorted))
  {
    if !(sorted == [] || p.quality >= sorted[0].quality) {
      InsertedSorted(p, sorted[1..]);
      InsertedContents(p, sorted[1..]);
      forall q | q in Inserted(p, sorted[1..]) ensures sorted[0].quality >= q.quality {
        assert q in multiset(Inserted(p, sorted[1..]));
      }
    }
  }

  lemma {:induction false} ByQualitySorts(points: seq<Point>)
    ensures multiset(ByQuality(points)) == multiset(points) && SortedByQuality(ByQuality(points))
    ensures forall p :: p in ByQuality(points) <==> p in points
  {
    if points != [] {
      ByQualitySorts(points[1..]);
      InsertedContents(points[0], ByQuality(points[1..]));
      InsertedSorted(points[0], ByQuality(points[1..]));
      assert points == [points[0]] + points[1..];
    }
    forall p ensures p in ByQuality(points) <==> p in points {
      assert p in multiset(ByQuality(points)) <==> p in multiset(points);
    }
  }

  function OfQuality(points: seq<Point>, quality: real): seq<Point> {
    if points == [] then []
    else (if points[0].quality == quality then [points[0]] else []) + OfQuality(points[1..], quality)
  }

  lemma {:induction false} InsertedStably(p: Point, sorted: seq<Point>, quality: real)
    requires SortedByQuality(sorted)
    ensures OfQuality(Inserted(p, sorted), quality) == OfQuality([p], quality) + OfQuality(sorted, quality)
  {
    if !(sorted == [] || p.quality >= sorted[0].quality) {
      InsertedStably(p, sorted[1..], quality);
      var rest := Inserted(p, sorted[1..]);
      assert ([sorted[0]] + rest)[1..] == rest;
    } else {
      assert ([p] + sorted)[1..] == sorted;
    }
  }

  /** Points of one quality stay in the order they had. */
  lemma {:induction false} ByQualityIsStable(points: seq<Point>, quality: real)
    ensures OfQuality(ByQuality(points), quality) == OfQuality(points, quality)
  {
    if points != [] {
      ByQualityIsStable(points[1..], quality);
      ByQualitySorts(points[1..]);
      InsertedStably(points[0], ByQuality(points[1..]), quality);
    }
  }

  /** The points of a run, unmarked. */
  function Points(ids: seq<string>, summary: map<string, Summary>, metric: string): (r: seq<Point>)
    ensures |r| == |ids| && forall i :: 0 <= i < |ids| ==> r[i] == PointOf(summary, metric, ids[i])
  {
    seq(|ids|, i requires 0 <= i < |ids| => PointOf(summary, metric, ids[i]))
  }

  /** `marked` carries the right flag on every point and is otherwise `points`. */
  ghost predicate Marks(points: seq<Point>, marked: seq<Point>) {
    && |marked| == |points|
    && forall i :: 0 <= i < |points| ==> marked[i] == points[i].(optimal := OnFrontier(points, points[i]))
  }

  /** The marks tell, of the points of a run, which are worth their cost: of two marked points either
      both values are equal or the one of better quality costs more, and for every unmarked point
      some marked one is at least as good in both values and better in one. */
  ghost predicate WorthTheirCost(frontier: seq<Point>) {
    && (forall p, q :: p in frontier && q in frontier && p.optimal && q.optimal ==> NoBargain(p, q))
    && (forall p :: p in frontier && !p.optimal ==> Beaten(frontier, p))
  }

  /** Equal quality has one cost, and better quality costs more. */
  predicate NoBargain(p: Point, q: Point) {
    if p.quality == q.quality then p.cost == q.cost else p.quality > q.quality <==> p.cost > q.cost
  }

  ghost predicate Beaten(frontier: seq<Point>, p: Point) {
    exists f ::
      && f in frontier && f.optimal && f.quality >= p.quality && f.cost <= p.cost
      && (f.quality > p.quality || f.cost < p.cost)
  }

  lemma MarkedPair(points: seq<Point>, marked: seq<Point>, i: nat, j: nat)
    requires ModelsConsistent(points) && Marks(points, marked) && i < |marked| && j < |marked|
    requires marked[i].optimal && marked[j].optimal
    ensures NoBargain(marked[i], marked[j])
  {
    FrontierIsStrict(points, points[i], points[j]);
  }

  lemma UnmarkedOne(points: seq<Point>, marked: seq<Point>, i: nat)
    requires ModelsConsistent(points) && Marks(points, marked) && i < |marked|
    ensures !marked[i].optimal ==> Beaten(marked, marked[i])
  {
    if !marked[i].optimal {
      var f := OffFrontierIsBeaten(points, points[i]);
      var j :| 0 <= j < |points| && points[j] == f;
      assert marked[j] in marked && marked[j].optimal;
    }
  }

  lemma MarkedAreWorth(points: seq<Point>, marked: seq<Point>)
    requires ModelsConsistent(points) && Marks(points, marked)
    ensures WorthTheirCost(marked)
  {
    forall i, j | 0 <= i < |marked| && 0 <= j < |marked| && marked[i].optimal && marked[j].optimal
      ensures NoBargain(marked[i], marked[j])
    {
      MarkedPair(points, marked, i, j);
    }
    forall i | 0 <= i < |marked| && !marked[i].optimal ensures Beaten(marked, marked[i]) {
      UnmarkedOne(points, marked, i);
    }
  }

  lemma WorthInAnyOrder(marked: seq<Point>, frontier: seq<Point>)
    requires WorthTheirCost(marked) && forall p :: p in frontier <==> p in marked
    ensures WorthTheirCost(frontier)
  {
    forall p | p in frontier && !p.optimal ensures Beaten(frontier, p) {
      assert Beaten(marked, p);
    }
  }

  /** `pareto_frontier`: the points of the run, best quality first, each marked truthfully. */
  method ParetoFrontier(ids: seq<string>, summary: map<string, Summary>, metric: string) returns (frontier: seq<Point>)
    ensures SortedByQuality(frontier)
    ensures exists marked :: Marks(Points(ids, summary, metric), marked) && multiset(frontier) == multiset(marked)
    ensures WorthTheirCost(frontier)
  {
    var points: seq<Point> := [];
    for i := 0 to |ids|
      invariant points == Points(ids, summary, metric)[..i]
    {
      points := points + [PointOf(summary, metric, ids[i])];
    }
    var marked := points;
    for i := 0 to |points|
      invariant |marked| == |points|
      invariant forall k :: 0 <= k < |points| ==>
        marked[k] == if k < i then points[k].(optimal := OnFrontier(points, points[k])) else points[k]
    {
      SameButForMarks(points, marked, points[i]);
      marked := marked[i := marked[i].(optimal := OnFrontier(marked, marked[i]))];
    }
    assert Marks(Points(ids, summary, metric), marked);
    ByQualitySorts(marked);
    frontier := ByQuality(marked);
    PointsConsistent(ids, summary, metric);
    MarkedAreWorth(Points(ids, summary, metric), marked);
    WorthInAnyOrder(marked, frontier);
  }

  ghost predicate SameValues(p: Point, q: Point) {
    p.modelId == q.modelId && p.quality == q.quality && p.cost == q.cost
  }

  /** Marking a point does not change what dominates what. */
  lemma SameButForMarks(points: seq<Point>, marked: seq<Point>, p: Point)
    requires |marked| == |points|
    requires forall k :: 0 <= k < |points| ==> SameValues(points[k], marked[k])
    ensures OnFrontier(marked, p) == OnFrontier(points, p)
  {
    if OnFrontier(points, p) {
      FrontierOfSame(points, marked, p);
    }
    if OnFrontier(marked, p) {
      FrontierOfSame(marked, points, p);
    }
  }

  lemma FrontierOfSame(points: seq<Point>, marked: seq<Point>, p: Point)
    requires |marked| == |points|
    requires forall k :: 0 <= k < |points| ==> SameValues(points[k], marked[k]) || SameValues(marked[k], points[k])
    requires OnFrontier(points, p)
    ensures OnFrontier(marked, p)
  {
    forall m | m in marked && m.modelId != p.modelId ensures !Dominates(m, p) {
      var k :| 0 <= k < |marked| && marked[k] == m;
      assert points[k] in points;
    }
  }

  // ---------------------------------------------------------------------
  // Recommendations
  // ---------------------------------------------------------------------

  /** Within the budget, and good enough, as far as limits are given. */
  predicate Qualifies(p: Point, budget: Option<real>, minQuality: Option<real>) {
    (budget.Some? ==> p.cost <= budget.value) && (minQuality.Some? ==> p.quality >= minQuality.value)
  }

  function Filter(points: seq<Point>, keep: Point -> bool): (r: seq<Point>)
    ensures forall p :: p in r <==> p in points && keep(p)
  {
    if points == [] then []
    else if keep(points[0]) then [points[0]] + Filter(points[1..], keep)
    else Filter(points[1..], keep)
  }

  /** The filters of `recommend`. */
  method Qualifying(frontier: seq<Point>, budget: Option<real>, minQuality: Option<real>) returns (r: seq<Point>)
    ensures SortedByQuality(r)
    ensures forall p :: p in r <==> p in frontier && p.optimal && Qualifies(p, budget, minQuality)
  {
    r := Filter(frontier, (p: Point) => p.optimal);
    if budget.Some? {
      r := Filter(r, (p: Point) => p.cost <= budget.value);
    }
    if minQuality.Some? {
      r := Filter(r, (p: Point) => p.quality >= minQuality.value);
    }
    ByQualitySorts(r);
    r := ByQuality(r);
  }

  /** `recommend`: the frontier points of the run that qualify, and no others, best quality first.  Of
      any two of them the one of better quality costs more. */
  method Recommend(
    ids: seq<string>, summary: map<string, Summary>, metric: string, budget: Option<real>, minQuality: Option<real>)
    returns (r: seq<Point>)
    ensures SortedByQuality(r)
    ensures forall p :: p in r <==> Recommended(Points(ids, summary, metric), p, budget, minQuality)
    ensures forall p :: p in r ==>
      (budget.Some? ==> p.cost <= budget.value) && (minQuality.Some? ==> p.quality >= minQuality.value)
    ensures forall p, q :: p in r && q in r ==> NoBargain(p, q)
  {
    var frontier := ParetoFrontier(ids, summary, metric);
    ghost var points := Points(ids, summary, metric);
    ghost var marked :| Marks(points, marked) && multiset(frontier) == multiset(marked);
    FrontierIsMarked(points, marked, frontier);
    r := Qualifying(frontier, budget, minQuality);
    PointsConsistent(ids, summary, metric);
    RecommendedAreWorth(points, r, budget, minQuality);
  }

  ghost predicate Recommended(points: seq<Point>, p: Point, budget: Option<real>, minQuality: Option<real>) {
    p.optimal && p.(optimal := false) in points && OnFrontier(points, p) && Qualifies(p, budget, minQuality)
  }

  lemma RecommendedAreWorth(points: seq<Point>, r: seq<Point>, budget: Option<real>, minQuality: Option<real>)
    requires ModelsConsistent(points) && forall p :: p in r ==> Recommended(points, p, budget, minQuality)
    ensures forall p, q :: p in r && q in r ==> NoBargain(p, q)
  {
    forall p, q | p in r && q in r ensures NoBargain(p, q) {
      FrontierIsStrict(points, p.(optimal := false), q.(optimal := false));
    }
  }

  lemma FrontierIsMarked(points: seq<Point>, marked: seq<Point>, frontier: seq<Point>)
    requires forall p :: p in points ==> !p.optimal
    requires Marks(points, marked) && multiset(frontier) == multiset(marked)
    ensures forall p ::
      p in frontier && p.optimal <==> p.optimal && p.(optimal := false) in points && OnFrontier(points, p)
  {
    forall p
      ensures p in frontier && p.optimal <==> p.optimal && p.(optimal := false) in points && OnFrontier(points, p)
    {
      assert p in frontier <==> p in multiset(marked);
      if p in marked && p.optimal {
        var i :| 0 <= i < |marked| && marked[i] == p;
        assert points[i] == p.(optimal := false);
      }
      if p.optimal && p.(optimal := false) in points && OnFrontier(points, p) {
        var i :| 0 <= i < |points| && points[i] == p.(optimal := false);
        assert marked[i] == p;
      }
    }
  }

  lemma PointsConsistent(ids: seq<string>, summary: map<string, Summary>, metric: string)
    ensures ModelsConsistent(Points(ids, summary, metric))
    ensures forall p :: p in Points(ids, summary, metric) ==> !p.optimal
  {
  }

  /** Filtering the frontier loses nothing.  If any model of the run qualifies, `recommend` is not
      empty; its first entry qualifies, has the best quality of all qualifying models, on or off
      the frontier, and costs no more than any of them with that quality.  It is empty exactly
      when no model qualifies. */
  lemma BestIsFirst(
    ids: seq<string>, summary: map<string, Summary>, metric: string, budget: Option<real>, minQuality: Option<real>,
    r: seq<Point>)
    requires SortedByQuality(r)
    requires forall p :: p in r <==> Recommended(Points(ids, summary, metric), p, budget, minQuality)
    ensures r == [] <==> forall p :: p in Points(ids, summary, metric) ==>
      (budget.Some? && p.cost > budget.value) || (minQuality.Some? && p.quality < minQuality.value)
    ensures r != [] ==> Qualifies(r[0], budget, minQuality) && r[0].modelId in ids
    ensures r != [] ==>
      forall p :: p in Points(ids, summary, metric) && Qualifies(p, budget, minQuality) ==>
        r[0].quality > p.quality || (r[0].quality == p.quality && r[0].cost <= p.cost)
  {
    var points := Points(ids, summary, metric);
    PointsConsistent(ids, summary, metric);
    if r != [] {
      assert r[0] in r && Qualifies(r[0].(optimal := false), budget, minQuality);
    }
    forall p | p in points && Qualifies(p, budget, minQuality) ensures r != [] && Beats(r[0], p) {
      var f := FrontierCovers(points, p);
      var g := f.(optimal := true);
      assert g in r && r[0] in r;
      if r[0].quality == g.quality {
        FrontierTies(points, r[0], g);
      }
    }
  }

  lemma FrontierTies(points: seq<Point>, p: Point, q: Point)
    requires p.(optimal := false) in points && q.(optimal := false) in points && ModelsConsistent(points)
    requires OnFrontier(points, p) && OnFrontier(points, q) && p.quality == q.quality
    ensures p.cost == q.cost
  {
    var p', q' := p.(optimal := false), q.(optimal := false);
    assert p' in points && q' in points;
  }
}
