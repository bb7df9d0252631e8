/** Semantic routing (extensions/router/router.go:188-195, 292-366). The server's aggregation stages
    are modelled on the list of references with their distances to the statement. */
module Router {
  datatype Route = Route(name: string, threshold: real)

  /** One indexed reference phrase of a route, with its vector distance. */
  datatype Reference = Reference(route: string, distance: real)

  datatype Aggregation = Avg | Min | Sum

  datatype Match = Match(name: string, distance: real)

  /** One condition of the FILTER expression: @route_name == 'name' && @distance < below. */
  datatype Condition = Condition(name: string, below: real) {
    predicate Holds(m: Match) {
      m.name == name && m.distance < below
    }
  }

  class SemanticRouter {
    var routes: seq<Route>

    constructor (routes: seq<Route>)
      ensures this.routes == routes
    {
      this.routes := routes;
    }

    method UpdateRouteThresholds(thresholds: map<string, real>)
      modifies this
      ensures |routes| == |old(routes)|
      ensures forall i | 0 <= i < |routes| ::
                routes[i] == var r := old(routes)[i];
                             if r.name in thresholds then r.(threshold := thresholds[r.name]) else r
    {
      for i := 0 to |routes|
        invariant |routes| == |old(routes)|
        invariant forall j | 0 <= j < |routes| ::
                    routes[j] == var r := old(routes)[j];
                                 if j < i && r.name in thresholds then r.(threshold := thresholds[r.name]) else r
      {
        if routes[i].name in thresholds {
          routes := routes[i := routes[i].(threshold := thresholds[routes[i].name])];
        }
      }
    }

    /** The radius of the vector search: the greatest threshold, but at least zero. */
    method MaxThreshold() returns (max: real)
      ensures max == GreatestThreshold(routes)
    {
      max := 0.0;
      for i := 0 to |routes|
        invariant max == GreatestThreshold(routes[..i])
      {
        assert routes[..i + 1][..i] == routes[..i];
        if routes[i].threshold > max {
          max := routes[i].threshold;
        }
      }
      assert routes[..|routes|] == routes;
    }

    /** The conditions of the FILTER expression, which are joined by ||: together they say that a match passes. */
    method ThresholdFilter() returns (parts: seq<Condition>)
      ensures |parts| == |routes|
      ensures forall m: Match :: (exists i | 0 <= i < |parts| :: parts[i].Holds(m)) <==> Passes(routes, m)
    {
      parts := [];
      for i := 0 to |routes|
        invariant |parts| == i
        invariant forall j | 0 <= j < i :: parts[j] == Condition(routes[j].name, routes[j].threshold)
      {
        parts := parts + [Condition(routes[i].name, routes[i].threshold)];
      }
    }
  }

  function GreatestThreshold(routes: seq<Route>): (max: real)
    ensures max >= 0.0
    ensures forall i | 0 <= i < |routes| :: routes[i].threshold <= max
    ensures max == 0.0 || exists i | 0 <= i < |routes| :: routes[i].threshold == max
  {
    if routes == [] then 0.0
    else
      var rest, last := GreatestThreshold(routes[..|routes| - 1]), routes[|routes| - 1];
      if last.threshold > rest then last.threshold else rest
  }

  /** Whether the FILTER lets a match through: it is strictly below the threshold of a route of its name. */
  predicate Passes(routes: seq<Route>, m: Match) {
    exists i | 0 <= i < |routes| :: routes[i].name == m.name && m.distance < routes[i].threshold
  }

  /** The range search keeps references within the radius. */
  function InRange(refs: seq<Reference>, radius: real): seq<Reference> {
    if refs == [] then []
    else InRange(refs[..|refs| - 1], radius) + if refs[|refs| - 1].distance <= radius then [refs[|refs| - 1]] else []
  }

  /** The distances of a route's references. */
  function DistancesOf(refs: seq<Reference>, name: string): seq<real> {
    if refs == [] then []
    else
      var last := refs[|refs| - 1];
      DistancesOf(refs[..|refs| - 1], name) + if last.route == name then [last.distance] else []
  }

  function SumOf(ds: seq<real>): real {
    if ds == [] then 0.0 else SumOf(ds[..|ds| - 1]) + ds[|ds| - 1]
  }

  function MinOf(ds: seq<real>): (m: real)
    requires ds != []
    ensures m in ds && forall d | d in ds :: m <= d
  {
    if |ds| == 1 then ds[0]
    else
      var rest := MinOf(ds[..|ds| - 1]);
      assert forall d | d in ds :: d in ds[..|ds| - 1] || d == ds[|ds| - 1];
      if ds[|ds| - 1] < rest then ds[|ds| - 1] else rest
  }

  function Reduce(a: Aggregation, ds: seq<real>): real
    requires ds != []
  {
    match a
    case Avg => SumOf(ds) / |ds| as real
    case Min => MinOf(ds)
    case Sum => SumOf(ds)
  }

  /** GROUPBY the route name and REDUCE the distances: one entry per route that has a reference. */
  function Groups(a: Aggregation, refs: seq<Reference>): (g: map<string, real>) {
    map name | name in Names(refs) :: GroupDistance(a, refs, name)
  }

  function Names(refs: seq<Reference>): set<string> {
    set i | 0 <= i < |refs| :: refs[i].route
  }

  function GroupDistance(a: Aggregation, refs: seq<Reference>, name: string): real {
    var ds := DistancesOf(refs, name);
    if ds == [] then 0.0 else Reduce(a, ds)
  }

  /** An ascending arrangement of the groups. SORTBY leaves the order of equal distances open, so there may be
      several. */
  ghost predicate Arranges(out: seq<Match>, g: map<string, real>) {
    && (forall i, j | 0 <= i < j < |out| :: out[i].distance <= out[j].distance && out[i].name != out[j].name)
    && (forall i | 0 <= i < |out| :: out[i].name in g && out[i].distance == g[out[i].name])
    && (forall name | name in g :: Match(name, g[name]) in out)
  }

  /** FILTER keeps the matches that pass, in order. */
  function Kept(routes: seq<Route>, out: seq<Match>): seq<Match> {
    if out == [] then []
    else Kept(routes, out[..|out| - 1]) + if Passes(routes, out[|out| - 1]) then [out[|out| - 1]] else []
  }

  function FirstK(out: seq<Match>, maxK: nat): seq<Match> {
    if |out| > maxK then out[..maxK] else out
  }

  /** matches is a possible result for the groups: sort, keep the first maxK, then filter. */
  ghost predicate Results(routes: seq<Route>, g: map<string, real>, maxK: nat, matches: seq<Match>) {
    exists out :: Arranges(out, g) && matches == Kept(routes, FirstK(out, maxK))
  }

  /** matches is a possible result for the references, which are grouped and reduced first. */
  ghost predicate Possible(a: Aggregation, routes: seq<Route>, refs: seq<Reference>, maxK: nat, matches: seq<Match>) {
    Results(routes, Groups(a, refs), maxK, matches)
  }

  /** A non-positive maxK counts as one. */
  function EffectiveK(maxK: int): nat {
    if maxK <= 0 then 1 else maxK
  }

  /** What the query returns: the pipeline on the references within the greatest threshold. */
  ghost predicate Routed(a: Aggregation, routes: seq<Route>, refs: seq<Reference>, maxK: int, matches: seq<Match>) {
    Possible(a, routes, InRange(refs, GreatestThreshold(routes)), EffectiveK(maxK), matches)
  }

  lemma {:induction false} KeptMembers(routes: seq<Route>, out: seq<Match>)
    ensures |Kept(routes, out)| <= |out|
    ensures forall m :: m in Kept(routes, out) <==> m in out && Passes(routes, m)
  {
    hide Passes;
    if out == [] {
    } else {
      var front, last := out[..|out| - 1], out[|out| - 1];
      KeptMembers(routes, front);
      assert out == front + [last];
    }
  }

  lemma {:induction false} KeptAscends(routes: seq<Route>, out: seq<Match>)
    requires forall i, j | 0 <= i < j < |out| :: out[i].distance <= out[j].distance && out[i].name != out[j].name
    ensures var kept := Kept(routes, out);
            forall i, j | 0 <= i < j < |kept| :: kept[i].distance <= kept[j].distance && kept[i].name != kept[j].name
  {
    hide Passes;
    if out == [] {
    } else {
      var front, last := out[..|out| - 1], out[|out| - 1];
      KeptAscends(routes, front);
      KeptMembers(routes, front);
      var kept := Kept(routes, front);
      forall i | 0 <= i < |kept| ensures kept[i].distance <= last.distance && kept[i].name != last.name {
        assert kept[i] in front;
      }
    }
  }

  /** For every aggregation: each match is strictly below the threshold of its own route, matches ascend
      and name different routes, and there are at most maxK of them. */
  lemma MatchesRespectThresholds(a: Aggregation, routes: seq<Route>, refs: seq<Reference>, maxK: int,
                                 matches: seq<Match>)
    requires Routed(a, routes, refs, maxK, matches)
    ensures |matches| <= if maxK <= 0 then 1 else maxK
    ensures forall m | m in matches :: BelowThreshold(routes, m)
    ensures forall i, j | 0 <= i < j < |matches| ::
              matches[i].distance <= matches[j].distance && matches[i].name != matches[j].name
  {
    hide Passes, Groups, InRange, GreatestThreshold, Kept, Names;
    var g := Groups(a, InRange(refs, GreatestThreshold(routes)));
    var out :| Arranges(out, g) && matches == Kept(routes, FirstK(out, EffectiveK(maxK)));
    KeptMembers(routes, FirstK(out, EffectiveK(maxK)));
    KeptAscends(routes, FirstK(out, EffectiveK(maxK)));
    hide BelowThreshold;
    forall m | m in matches ensures BelowThreshold(routes, m) {
      PassesIff(routes, m);
    }
  }

  /** The distance is below the threshold of a route of the match's own name. */
  predicate BelowThreshold(routes: seq<Route>, m: Match) {
    exists r | r in routes :: r.name == m.name && m.distance < r.threshold
  }

  lemma PassesIff(routes: seq<Route>, m: Match)
    ensures Passes(routes, m) <==> BelowThreshold(routes, m)
  {
    if Passes(routes, m) {
      var i :| 0 <= i < |routes| && routes[i].name == m.name && m.distance < routes[i].threshold;
      assert routes[i] in routes;
    }
  }

  ghost predicate Farthest(g: map<string, real>, name: string) {
    name in g && forall other | other in g :: g[other] <= g[name]
  }

  lemma {:induction false} FarthestExists(g: map<string, real>) returns (name: string)
    requires g != map[]
    ensures Farthest(g, name)
    decreases |g|
  {
    var some :| some in g;
    var rest := g - {some};
    if rest == map[] {
      name := some;
      forall other | other in g ensures g[other] <= g[name] {
        assert other !in rest;
      }
    } else {
      name := FarthestExists(rest);
      if g[name] < g[some] {
        name := some;
      }
      forall other | other in g ensures g[other] <= g[name] {
        assert other != some ==> other in rest;
      }
    }
  }

  lemma {:induction false} Arrangement(g: map<string, real>) returns (out: seq<Match>)
    ensures Arranges(out, g)
    decreases |g|
  {
    if g == map[] {
      out := [];
    } else {
      var last := FarthestExists(g);
      var front := Arrangement(g - {last});
      AppendArranges(front, g, last);
      out := front + [Match(last, g[last])];
    }
  }

  lemma {:induction false} AppendArranges(front: seq<Match>, g: map<string, real>, last: string)
    requires Farthest(g, last) && Arranges(front, g - {last})
    ensures Arranges(front + [Match(last, g[last])], g)
  {
    var out := front + [Match(last, g[last])];
    assert forall i | 0 <= i < |front| :: out[i] == front[i] && front[i].name in g - {last};
    forall name | name in g ensures Match(name, g[name]) in out {
      assert name != last ==> Match(name, (g - {last})[name]) in front;
    }
  }

  /** Every match carries the reduced distance of its own group. */
  lemma MatchesComeFromGroups(a: Aggregation, routes: seq<Route>, refs: seq<Reference>, maxK: nat, matches: seq<Match>)
    requires Possible(a, routes, refs, maxK, matches)
    ensures forall m | m in matches :: m.name in Groups(a, refs) && m.distance == Groups(a, refs)[m.name]
  {
    hide Groups, Results;
    ResultsFromGroups(routes, Groups(a, refs), maxK, matches);
  }

  lemma ResultsFromGroups(routes: seq<Route>, g: map<string, real>, maxK: nat, matches: seq<Match>)
    requires Results(routes, g, maxK, matches)
    ensures forall m | m in matches :: m.name in g && m.distance == g[m.name] && Passes(routes, m)
  {
    hide Passes, Kept;
    var out :| Arranges(out, g) && matches == Kept(routes, FirstK(out, maxK));
    KeptMembers(routes, FirstK(out, maxK));
    forall m | m in matches ensures m.name in g && m.distance == g[m.name] {
      assert m in out;
    }
  }

  /** The other groups that may be sorted before the group of the name. */
  function Closer(g: map<string, real>, name: string): map<string, real>
    requires name in g
  {
    map other | other in g && other != name && g[other] <= g[name] :: g[other]
  }

  function Farther(g: map<string, real>, name: string): map<string, real>
    requires name in g
  {
    map other | other in g && g[other] > g[name] :: g[other]
  }

  lemma SplitGroups(g: map<string, real>, name: string)
    requires name in g
    ensures g == Closer(g, name) + map[name := g[name]] + Farther(g, name)
  {
    var joined := Closer(g, name) + map[name := g[name]] + Farther(g, name);
    assert joined.Keys == g.Keys;
  }

  lemma {:induction false} DistinctNames(s: seq<Match>)
    requires forall i, j | 0 <= i < j < |s| :: s[i].name != s[j].name
    ensures |set i | 0 <= i < |s| :: s[i].name| == |s|
  {
    if s == [] {
    } else {
      var front, last := s[..|s| - 1], s[|s| - 1];
      DistinctNames(front);
      var names := set i | 0 <= i < |front| :: front[i].name;
      assert (set i | 0 <= i < |s| :: s[i].name) == names + {last.name} by {
        forall i | 0 <= i < |front| ensures front[i].name == s[i].name {
        }
        assert s[|s| - 1].name == last.name;
      }
      assert last.name !in names;
    }
  }

  lemma ArrangedLength(out: seq<Match>, g: map<string, real>)
    requires Arranges(out, g)
    ensures |out| == |g|
  {
    DistinctNames(out);
    var names := set i | 0 <= i < |out| :: out[i].name;
    forall name | name in g ensures name in names {
      assert Match(name, g[name]) in out;
    }
    assert names == g.Keys;
    assert |g.Keys| == |g|;
  }

  lemma SubsetSmaller(small: set<string>, large: set<string>)
    requires small <= large
    ensures |small| <= |large|
  {
    assert large == small + (large - small);
  }

  /** A group is preceded only by groups that are not farther. */
  lemma PositionBound(out: seq<Match>, g: map<string, real>, i: nat)
    requires Arranges(out, g) && i < |out|
    ensures i <= |Closer(g, out[i].name)|
  {
    var before := out[..i];
    DistinctNames(before);
    var names := set j | 0 <= j < |before| :: before[j].name;
    var closer := Closer(g, out[i].name);
    forall name | name in names ensures name in closer.Keys {
      var j :| 0 <= j < |before| && before[j].name == name;
      assert before[j] == out[j];
    }
    SubsetSmaller(names, closer.Keys);
    assert |closer.Keys| == |closer|;
  }

  lemma {:induction false} JoinAround(front: seq<Match>, m: Match, tail: seq<Match>, closer: map<string, real>,
                                      farther: map<string, real>)
    requires Arranges(front, closer) && Arranges(tail, farther)
    requires m.name !in closer && m.name !in farther && closer.Keys !! farther.Keys
    requires forall name | name in closer :: closer[name] <= m.distance
    requires forall name | name in farther :: m.distance < farther[name]
    ensures Arranges(front + [m] + tail, closer + map[m.name := m.distance] + farther)
  {
    JoinSorted(front, m, tail, closer, farther);
    JoinMembers(front, m, tail, closer, farther);
    JoinCovers(front, m, tail, closer, farther);
  }

  lemma {:induction false} JoinSorted(front: seq<Match>, m: Match, tail: seq<Match>, closer: map<string, real>,
                                      farther: map<string, real>)
    requires Arranges(front, closer) && Arranges(tail, farther)
    requires m.name !in closer && m.name !in farther && closer.Keys !! farther.Keys
    requires forall name | name in closer :: closer[name] <= m.distance
    requires forall name | name in farther :: m.distance < farther[name]
    ensures var out := front + [m] + tail;
            forall i, j | 0 <= i < j < |out| :: out[i].distance <= out[j].distance && out[i].name != out[j].name
  {
    var out := front + [m] + tail;
    forall i | 0 <= i < |out|
      ensures if i < |front| then out[i] == front[i] && out[i].name in closer && out[i].distance <= m.distance
              else if i == |front| then out[i] == m
              else out[i] == tail[i - |front| - 1] && out[i].name in farther && out[i].distance > m.distance
    {
    }
  }

  lemma {:induction false} JoinMembers(front: seq<Match>, m: Match, tail: seq<Match>, closer: map<string, real>,
                                       farther: map<string, real>)
    requires Arranges(front, closer) && Arranges(tail, farther)
    requires m.name !in closer && m.name !in farther && closer.Keys !! farther.Keys
    ensures var out, g := front + [m] + tail, closer + map[m.name := m.distance] + farther;
            forall i | 0 <= i < |out| :: out[i].name in g && out[i].distance == g[out[i].name]
  {
    var out, g := front + [m] + tail, closer + map[m.name := m.distance] + farther;
    assert forall i | 0 <= i < |front| :: out[i] == front[i] && out[i].name in closer && out[i].name !in farther;
    assert forall i | |front| < i < |out| :: out[i] == tail[i - |front| - 1] && out[i].name in farther;
  }

  lemma {:induction false} JoinCovers(front: seq<Match>, m: Match, tail: seq<Match>, closer: map<string, real>,
                                      farther: map<string, real>)
    requires Arranges(front, closer) && Arranges(tail, farther) && m.name !in closer && m.name !in farther
    requires closer.Keys !! farther.Keys
    ensures var g := closer + map[m.name := m.distance] + farther;
            forall name | name in g :: Match(name, g[name]) in front + [m] + tail
  {
    var g := closer + map[m.name := m.distance] + farther;
    forall name | name in g ensures Match(name, g[name]) in front + [m] + tail {
      if name in farther {
        assert Match(name, farther[name]) in tail;
      } else if name in closer {
        assert Match(name, closer[name]) in front;
      } else {
        assert m in [m];
      }
    }
  }

  /** An arrangement with every group that is not farther before the group of the name. */
  lemma LatestPosition(g: map<string, real>, name: string) returns (out: seq<Match>)
    requires name in g
    ensures Arranges(out, g)
    ensures var i := |Closer(g, name)|; i < |out| && out[i].name == name
  {
    hide Arranges;
    var closer, farther := Closer(g, name), Farther(g, name);
    SplitGroups(g, name);
    var m := Match(name, g[name]);
    var front := Arrangement(closer);
    var tail := Arrangement(farther);
    ArrangedLength(front, closer);
    JoinAround(front, m, tail, closer, farther);
    out := front + [m] + tail;
  }

  lemma {:induction false} FirstKLacks(out: seq<Match>, g: map<string, real>, k: nat, maxK: nat)
    requires Arranges(out, g) && maxK <= k < |out|
    ensures out[k] !in FirstK(out, maxK)
  {
    var first := FirstK(out, maxK);
    forall i | 0 <= i < |first| ensures first[i] != out[k] {
      assert first[i] == out[i] && out[i].name != out[k].name;
    }
  }

  /** Because only maxK groups are kept before the filter, a passing group is sure to be among the
      matches exactly when fewer than maxK other groups are as near, whether or not those pass. */
  lemma SureMatchIff(a: Aggregation, routes: seq<Route>, refs: seq<Reference>, maxK: nat, name: string)
    requires name in Groups(a, refs) && Passes(routes, Match(name, Groups(a, refs)[name]))
    ensures (forall matches | Possible(a, routes, refs, maxK, matches) :: Match(name, Groups(a, refs)[name]) in matches)
            <==> |Closer(Groups(a, refs), name)| < maxK
  {
    hide Groups, Passes, Kept, Closer;
    var g := Groups(a, refs);
    var m := Match(name, g[name]);
    if |Closer(g, name)| < maxK {
      forall matches | Possible(a, routes, refs, maxK, matches) ensures m in matches {
        var out :| Arranges(out, g) && matches == Kept(routes, FirstK(out, maxK));
        KeptMembers(routes, FirstK(out, maxK));
        assert m in out;
        var i :| 0 <= i < |out| && out[i] == m;
        PositionBound(out, g, i);
        assert FirstK(out, maxK)[i] == m;
      }
    } else {
      var out := LatestPosition(g, name);
      KeptMembers(routes, FirstK(out, maxK));
      FirstKLacks(out, g, |Closer(g, name)|, maxK);
      assert Possible(a, routes, refs, maxK, Kept(routes, FirstK(out, maxK)));
    }
  }

  /** The same for a whole query: of the groups of the references within the greatest threshold, one whose
      distance is below a threshold of its route is sure to be returned exactly when fewer than maxK others
      are as near; a maxK that is not positive counts as one. */
  lemma RoutedSureIff(a: Aggregation, routes: seq<Route>, refs: seq<Reference>, maxK: int, r: Route)
    requires var g := Groups(a, InRange(refs, GreatestThreshold(routes)));
             r in routes && r.name in g && g[r.name] < r.threshold
    ensures var g := Groups(a, InRange(refs, GreatestThreshold(routes)));
            (forall matches | Routed(a, routes, refs, maxK, matches) :: Match(r.name, g[r.name]) in matches)
            <==> |set other | other in g && other != r.name && g[other] <= g[r.name]| < if maxK <= 0 then 1 else maxK
  {
    hide Groups, InRange, Passes, GreatestThreshold;
    var near := InRange(refs, GreatestThreshold(routes));
    var g := Groups(a, near);
    PassesIff(routes, Match(r.name, g[r.name]));
    SureMatchIff(a, routes, near, EffectiveK(maxK), r.name);
    var closer := Closer(g, r.name);
    assert closer.Keys == set other | other in g && other != r.name && g[other] <= g[r.name];
    assert |closer| == |closer.Keys|;
  }

  /** Every route with a reference has a group; its distance under Min is its least one, and under Avg times the
      number of its references it is their sum. */
  lemma GroupsAre(refs: seq<Reference>, name: string)
    ensures forall a :: name in Groups(a, refs) <==> exists ref | ref in refs :: ref.route == name
    ensures name in Groups(Min, refs) ==>
              && Reference(name, Groups(Min, refs)[name]) in refs
              && forall ref | ref in refs && ref.route == name :: Groups(Min, refs)[name] <= ref.distance
    ensures name in Groups(Sum, refs) ==> Groups(Sum, refs)[name] == TotalOf(refs, name)
    ensures name in Groups(Avg, refs) ==>
              CountOf(refs, name) > 0 && Groups(Avg, refs)[name] * CountOf(refs, name) as real == TotalOf(refs, name)
  {
    DistancesAre(refs, name);
    NamesAre(refs, name);
    hide DistancesOf, SumOf, MinOf, TotalOf, CountOf, Names;
    var ds := DistancesOf(refs, name);
    if name in Names(refs) {
      var ref :| ref in refs && ref.route == name;
      assert ref == Reference(name, ref.distance) && ref.distance in ds;
      assert forall other | other in refs && other.route == name :: other == Reference(name, other.distance);
    }
  }

  lemma NamesAre(refs: seq<Reference>, name: string)
    ensures name in Names(refs) <==> exists ref | ref in refs :: ref.route == name
  {
    if ref :| ref in refs && ref.route == name {
      var i :| 0 <= i < |refs| && refs[i] == ref;
      assert refs[i].route == name;
    }
    if i :| 0 <= i < |refs| && refs[i].route == name {
      assert refs[i] in refs;
    }
  }

  function TotalOf(refs: seq<Reference>, name: string): real {
    if refs == [] then 0.0 else (if refs[0].route == name then refs[0].distance else 0.0) + TotalOf(refs[1..], name)
  }

  function CountOf(refs: seq<Reference>, name: string): nat {
    if refs == [] then 0 else (if refs[0].route == name then 1 else 0) + CountOf(refs[1..], name)
  }

  lemma {:induction false} DistancesAre(refs: seq<Reference>, name: string)
    ensures var ds := DistancesOf(refs, name);
            && (forall d :: d in ds <==> Reference(name, d) in refs)
            && |ds| == CountOf(refs, name) && SumOf(ds) == TotalOf(refs, name)
  {
    if refs == [] {
    } else {
      var front, last := refs[..|refs| - 1], refs[|refs| - 1];
      DistancesAre(front, name);
      assert refs == front + [last];
      TotalAppend(front, last, name);
      SumAppend(DistancesOf(front, name), last.distance);
      assert DistancesOf(front, name) + [] == DistancesOf(front, name);
    }
  }

  lemma SumAppend(ds: seq<real>, d: real)
    ensures SumOf(ds + [d]) == SumOf(ds) + d
  {
    assert (ds + [d])[..|ds|] == ds;
  }

  lemma {:induction false} TotalAppend(refs: seq<Reference>, last: Reference, name: string)
    ensures TotalOf(refs + [last], name) == TotalOf(refs, name) + if last.route == name then last.distance else 0.0
    ensures CountOf(refs + [last], name) == CountOf(refs, name) + if last.route == name then 1 else 0
  {
    var all := refs + [last];
    if refs == [] {
      assert all[1..] == [];
    } else {
      TotalAppend(refs[1..], last, name);
      assert all[1..] == refs[1..] + [last];
    }
  }
}
