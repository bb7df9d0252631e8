/** What limiting the vector search to the greatest threshold loses (extensions/router/router.go:309-346):
    with Min nothing; with Avg and Sum it depends on the references, and the exact conditions are proved. */
module RouterRange {
  import opened Router

  /** The groups that may still pass: those strictly below the radius. */
  function Below(g: map<string, real>, radius: real): map<string, real> {
    map name | name in g && g[name] < radius :: g[name]
  }

  function NotBelow(g: map<string, real>, radius: real): map<string, real> {
    map name | name in g && g[name] >= radius :: g[name]
  }

  lemma {:induction false} AtRadius(routes: seq<Route>, m: Match)
    requires m.distance >= GreatestThreshold(routes)
    ensures !Passes(routes, m)
  {
  }

  lemma {:induction false} KeptPrefix(routes: seq<Route>, out: seq<Match>, k: nat)
    requires k <= |out| && forall i | k <= i < |out| :: !Passes(routes, out[i])
    ensures Kept(routes, out) == Kept(routes, out[..k])
  {
    hide Passes;
    if k == |out| {
      assert out[..k] == out;
    } else {
      var front := out[..|out| - 1];
      KeptPrefix(routes, front, k);
      assert front[..k] == out[..k];
    }
  }

  /** The part of an ascending arrangement below the radius. */
  lemma {:induction false} Within(out: seq<Match>, radius: real) returns (k: nat)
    requires forall i, j | 0 <= i < j < |out| :: out[i].distance <= out[j].distance
    ensures k <= |out|
    ensures forall i | 0 <= i < k :: out[i].distance < radius
    ensures forall i | k <= i < |out| :: out[i].distance >= radius
  {
    if out == [] {
      k := 0;
    } else if out[|out| - 1].distance < radius {
      k := |out|;
    } else {
      k := Within(out[..|out| - 1], radius);
    }
  }

  /** Keeping the first maxK before filtering gives the same whether or not entries at or beyond the radius follow. */
  lemma {:induction false} TailIrrelevant(routes: seq<Route>, out: seq<Match>, k: nat, maxK: nat)
    requires k <= |out|
    requires forall i | k <= i < |out| :: out[i].distance >= GreatestThreshold(routes)
    ensures Kept(routes, FirstK(out, maxK)) == Kept(routes, FirstK(out[..k], maxK))
  {
    hide Passes;
    var first := FirstK(out, maxK);
    forall i | 0 <= i < |first| && k <= i ensures !Passes(routes, first[i]) {
      AtRadius(routes, out[i]);
    }
    var cut := if |first| < k then |first| else k;
    KeptPrefix(routes, first, cut);
    assert first[..cut] == FirstK(out[..k], maxK);
  }

  /** The part of an arrangement below the radius arranges the groups below the radius. */
  lemma {:induction false} PrefixArranges(out: seq<Match>, g: map<string, real>, radius: real, k: nat)
    requires Arranges(out, g) && k <= |out|
    requires forall i | 0 <= i < k :: out[i].distance < radius
    requires forall i | k <= i < |out| :: out[i].distance >= radius
    ensures Arranges(out[..k], Below(g, radius))
  {
    forall name | name in Below(g, radius) ensures Match(name, g[name]) in out[..k] {
      assert Match(name, g[name]) in out;
      var i :| 0 <= i < |out| && out[i] == Match(name, g[name]);
      assert out[..k][i] == out[i];
    }
  }

  lemma {:induction false} JoinArranges(front: seq<Match>, tail: seq<Match>, g: map<string, real>, radius: real)
    requires Arranges(front, Below(g, radius)) && Arranges(tail, NotBelow(g, radius))
    ensures Arranges(front + tail, g)
    ensures forall i | |front| <= i < |front + tail| :: (front + tail)[i].distance >= radius
  {
    JoinSorted(front, tail, g, radius);
    JoinCovers(front, tail, g, radius);
  }

  lemma {:induction false} JoinSorted(front: seq<Match>, tail: seq<Match>, g: map<string, real>, radius: real)
    requires Arranges(front, Below(g, radius)) && Arranges(tail, NotBelow(g, radius))
    ensures var out := front + tail;
            && (forall i, j | 0 <= i < j < |out| :: out[i].distance <= out[j].distance && out[i].name != out[j].name)
            && (forall i | 0 <= i < |out| :: out[i].name in g && out[i].distance == g[out[i].name])
            && (forall i | |front| <= i < |out| :: out[i].distance >= radius)
  {
    var out := front + tail;
    forall i | 0 <= i < |out|
      ensures if i < |front| then out[i] == front[i] && out[i].name in Below(g, radius) && out[i].distance < radius
              else out[i] == tail[i - |front|] && out[i].name in NotBelow(g, radius) && out[i].distance >= radius
    {
    }
  }

  lemma {:induction false} JoinCovers(front: seq<Match>, tail: seq<Match>, g: map<string, real>, radius: real)
    requires Arranges(front, Below(g, radius)) && Arranges(tail, NotBelow(g, radius))
    ensures forall name | name in g :: Match(name, g[name]) in front + tail
  {
    forall name | name in g ensures Match(name, g[name]) in front + tail {
      if g[name] < radius {
        assert Match(name, Below(g, radius)[name]) in front;
      } else {
        assert Match(name, NotBelow(g, radius)[name]) in tail;
      }
    }
  }

  lemma {:induction false} Ascends(out: seq<Match>, g: map<string, real>)
    requires Arranges(out, g)
    ensures forall i, j | 0 <= i < j < |out| :: out[i].distance <= out[j].distance
  {
  }

  /** Only the groups below the greatest threshold decide the result. */
  lemma {:induction false} OnlyBelowCounts(routes: seq<Route>, g: map<string, real>, maxK: nat, matches: seq<Match>)
    ensures Results(routes, g, maxK, matches) <==> Results(routes, Below(g, GreatestThreshold(routes)), maxK, matches)
  {
    hide Below, NotBelow, Kept, FirstK, Arranges;
    var radius := GreatestThreshold(routes);
    if Results(routes, g, maxK, matches) {
      var out :| Arranges(out, g) && matches == Kept(routes, FirstK(out, maxK));
      Ascends(out, g);
      var k := Within(out, radius);
      PrefixArranges(out, g, radius, k);
      TailIrrelevant(routes, out, k, maxK);
    }
    if Results(routes, Below(g, radius), maxK, matches) {
      var out :| Arranges(out, Below(g, radius)) && matches == Kept(routes, FirstK(out, maxK));
      var tail := Arrangement(NotBelow(g, radius));
      JoinArranges(out, tail, g, radius);
      TailIrrelevant(routes, out + tail, |out|, maxK);
      assert (out + tail)[..|out|] == out;
    }
  }

  /** For every routes with this greatest threshold and every maxK, the limited search has the same possible
      results as one over all references. */
  ghost predicate LosesNothing(a: Aggregation, refs: seq<Reference>, radius: real) {
    forall routes, maxK: int, matches | GreatestThreshold(routes) == radius ::
      Routed(a, routes, refs, maxK, matches) <==> Possible(a, routes, refs, EffectiveK(maxK), matches)
  }

  /** The route's distance, or what matters of it: nothing if it is not below the radius. */
  ghost predicate SameBelow(g: map<string, real>, h: map<string, real>, radius: real, name: string) {
    (name in Below(g, radius) <==> name in Below(h, radius)) && (name in Below(g, radius) ==> g[name] == h[name])
  }

  lemma {:induction false} SameBelowAll(g: map<string, real>, h: map<string, real>, radius: real)
    ensures Below(g, radius) == Below(h, radius) <==> forall name :: SameBelow(g, h, radius, name)
  {
    if Below(g, radius) == Below(h, radius) {
      forall name ensures SameBelow(g, h, radius, name) {
        assert name in Below(g, radius) ==> Below(g, radius)[name] == Below(h, radius)[name];
      }
    }
    if forall name :: SameBelow(g, h, radius, name) {
      forall name ensures name in Below(g, radius) <==> name in Below(h, radius) {
        assert SameBelow(g, h, radius, name);
      }
      forall name | name in Below(g, radius) ensures Below(g, radius)[name] == Below(h, radius)[name] {
        assert SameBelow(g, h, radius, name);
      }
    }
  }

  /** One route tells apart groups that differ below the radius. */
  lemma {:induction false} Distinguishes(g: map<string, real>, h: map<string, real>, radius: real, name: string)
    returns (maxK: nat, matches: seq<Match>)
    requires radius >= 0.0 && name in Below(g, radius) && (name !in Below(h, radius) || g[name] != h[name])
    ensures maxK > 0 && GreatestThreshold([Route(name, radius)]) == radius
    ensures var routes := [Route(name, radius)]; Results(routes, g, maxK, matches) && !Results(routes, h, maxK, matches)
  {
    hide Arranges, Kept, GreatestThreshold;
    var routes, m := [Route(name, radius)], Match(name, g[name]);
    OnlyThreshold(name, radius);
    var out := Arrangement(g);
    maxK := |out| + 1;
    matches := Kept(routes, out);
    assert FirstK(out, maxK) == out;
    KeptMembers(routes, out);
    ArrangedMember(out, g, name);
    assert routes[0].name == m.name && Passes(routes, m);
    if Results(routes, h, maxK, matches) {
      ResultsFromGroups(routes, h, maxK, matches);
      assert false;
    }
  }

  lemma {:induction false} ArrangedMember(out: seq<Match>, g: map<string, real>, name: string)
    requires Arranges(out, g) && name in g
    ensures Match(name, g[name]) in out
  {
  }

  lemma {:induction false} OnlyThreshold(name: string, radius: real)
    requires radius >= 0.0
    ensures GreatestThreshold([Route(name, radius)]) == radius
  {
    assert [Route(name, radius)][..0] == [];
  }

  lemma {:induction false} SameBelowSuffices(a: Aggregation, refs: seq<Reference>, radius: real)
    requires Below(Groups(a, refs), radius) == Below(Groups(a, InRange(refs, radius)), radius)
    ensures LosesNothing(a, refs, radius)
  {
    hide Groups, InRange, Results, Below, GreatestThreshold;
    forall routes, maxK: int, matches | GreatestThreshold(routes) == radius
      ensures Routed(a, routes, refs, maxK, matches) <==> Possible(a, routes, refs, EffectiveK(maxK), matches)
    {
      OnlyBelowCounts(routes, Groups(a, refs), EffectiveK(maxK), matches);
      OnlyBelowCounts(routes, Groups(a, InRange(refs, radius)), EffectiveK(maxK), matches);
    }
  }

  lemma {:induction false} LosesSomething(a: Aggregation, refs: seq<Reference>, radius: real, name: string)
    requires radius >= 0.0 && !SameBelow(Groups(a, refs), Groups(a, InRange(refs, radius)), radius, name)
    ensures !LosesNothing(a, refs, radius)
  {
    hide Groups, InRange, Results, Below, GreatestThreshold;
    var g, h := Groups(a, refs), Groups(a, InRange(refs, radius));
    var maxK, matches;
    if name in Below(g, radius) {
      maxK, matches := Distinguishes(g, h, radius, name);
    } else {
      maxK, matches := Distinguishes(h, g, radius, name);
    }
    var routes := [Route(name, radius)];
    assert EffectiveK(maxK) == maxK;
    assert Routed(a, routes, refs, maxK, matches) != Possible(a, routes, refs, EffectiveK(maxK), matches);
  }

  /** The limited search loses nothing exactly when it leaves every group below the radius as it is. */
  lemma {:induction false} LosesNothingIff(a: Aggregation, refs: seq<Reference>, radius: real)
    requires radius >= 0.0
    ensures LosesNothing(a, refs, radius) <==>
              forall name :: SameBelow(Groups(a, refs), Groups(a, InRange(refs, radius)), radius, name)
  {
    hide Groups, InRange, Below, LosesNothing, SameBelow;
    var g, h := Groups(a, refs), Groups(a, InRange(refs, radius));
    SameBelowAll(g, h, radius);
    if name :| !SameBelow(g, h, radius, name) {
      LosesSomething(a, refs, radius, name);
    } else {
      SameBelowSuffices(a, refs, radius);
    }
  }

  lemma {:induction false} NameHasDistance(refs: seq<Reference>, name: string)
    ensures name in Names(refs) <==> DistancesOf(refs, name) != []
  {
    DistancesAre(refs, name);
    if name in Names(refs) {
      var i :| 0 <= i < |refs| && refs[i].route == name;
      assert Reference(name, refs[i].distance) in refs;
      assert refs[i].distance in DistancesOf(refs, name);
    }
    if DistancesOf(refs, name) != [] {
      var d := DistancesOf(refs, name)[0];
      assert d in DistancesOf(refs, name);
    }
  }

  /** The distances within the radius, and those beyond it. */
  function Near(ds: seq<real>, radius: real): seq<real> {
    if ds == [] then []
    else Near(ds[..|ds| - 1], radius) + if ds[|ds| - 1] <= radius then [ds[|ds| - 1]] else []
  }

  function Far(ds: seq<real>, radius: real): seq<real> {
    if ds == [] then []
    else Far(ds[..|ds| - 1], radius) + if ds[|ds| - 1] <= radius then [] else [ds[|ds| - 1]]
  }

  lemma {:induction false} NearDistances(refs: seq<Reference>, radius: real, name: string)
    ensures DistancesOf(InRange(refs, radius), name) == Near(DistancesOf(refs, name), radius)
  {
    if refs == [] {
    } else {
      var front, last := refs[..|refs| - 1], refs[|refs| - 1];
      NearDistances(front, radius, name);
      assert (InRange(front, radius) + [last])[..|InRange(front, radius)|] == InRange(front, radius);
      assert InRange(front, radius) + [] == InRange(front, radius);
      var ds := DistancesOf(front, name);
      assert (ds + [last.distance])[..|ds|] == ds && ds + [] == ds;
    }
  }

  lemma {:induction false} Splits(ds: seq<real>, radius: real)
    ensures forall d :: d in Near(ds, radius) <==> d in ds && d <= radius
    ensures forall d :: d in Far(ds, radius) <==> d in ds && d > radius
    ensures |ds| == |Near(ds, radius)| + |Far(ds, radius)|
  {
    if ds == [] {
    } else {
      Splits(ds[..|ds| - 1], radius);
      assert ds == ds[..|ds| - 1] + [ds[|ds| - 1]];
    }
  }

  lemma {:induction false} SumSplits(ds: seq<real>, radius: real)
    ensures SumOf(ds) == SumOf(Near(ds, radius)) + SumOf(Far(ds, radius))
  {
    if ds == [] {
    } else {
      var front, last := ds[..|ds| - 1], ds[|ds| - 1];
      SumSplits(front, radius);
      SumAppend(Near(front, radius), last);
      SumAppend(Far(front, radius), last);
      assert Near(front, radius) + [] == Near(front, radius) && Far(front, radius) + [] == Far(front, radius);
    }
  }

  /** What matters of a route's distance, from the distances of its references alone. */
  lemma {:induction false} SameBelowByDistances(a: Aggregation, refs: seq<Reference>, radius: real, name: string)
    ensures var ds := DistancesOf(refs, name);
            var near := Near(ds, radius);
            SameBelow(Groups(a, refs), Groups(a, InRange(refs, radius)), radius, name) <==>
              && ((ds != [] && Reduce(a, ds) < radius) <==> (near != [] && Reduce(a, near) < radius))
              && (ds != [] && near != [] && Reduce(a, ds) < radius ==> Reduce(a, ds) == Reduce(a, near))
  {
    hide DistancesOf, InRange, Names, Near, Reduce;
    NearDistances(refs, radius, name);
    NameHasDistance(refs, name);
    NameHasDistance(InRange(refs, radius), name);
  }

  lemma {:induction false} NothingFar(ds: seq<real>, radius: real)
    requires Far(ds, radius) == []
    ensures Near(ds, radius) == ds
  {
    if ds != [] {
      NothingFar(ds[..|ds| - 1], radius);
    }
  }

  /** With Min nothing is lost. */
  lemma {:induction false} MinLosesNothing(refs: seq<Reference>, radius: real)
    requires radius >= 0.0
    ensures LosesNothing(Min, refs, radius)
  {
    hide LosesNothing, SameBelow, Groups, InRange, DistancesOf, Near;
    LosesNothingIff(Min, refs, radius);
    forall name ensures SameBelow(Groups(Min, refs), Groups(Min, InRange(refs, radius)), radius, name) {
      var ds := DistancesOf(refs, name);
      SameBelowByDistances(Min, refs, radius, name);
      Splits(ds, radius);
      LeastIsNear(ds, radius);
    }
  }

  lemma {:induction false} LeastIsNear(ds: seq<real>, radius: real)
    ensures Near(ds, radius) != [] ==> ds != [] && MinOf(Near(ds, radius)) == MinOf(ds)
    ensures Near(ds, radius) == [] && ds != [] ==> MinOf(ds) > radius
  {
    hide Near;
    Splits(ds, radius);
    var near := Near(ds, radius);
    if near != [] {
      assert near[0] in near;
      assert MinOf(near) in ds && MinOf(ds) <= near[0];
      assert MinOf(ds) in near;
    } else if ds != [] {
      assert MinOf(ds) !in near;
    }
  }

  /** With Min, limiting the search to the greatest threshold loses nothing: the possible results are
      exactly those over all references. */
  lemma {:induction false} RangeLosesNothing(routes: seq<Route>, refs: seq<Reference>, maxK: int, matches: seq<Match>)
    ensures Routed(Min, routes, refs, maxK, matches) <==> Possible(Min, routes, refs, EffectiveK(maxK), matches)
  {
    hide Routed, Possible;
    MinLosesNothing(refs, GreatestThreshold(routes));
  }

  function Times(r: real, n: nat): real {
    if n == 0 then 0.0 else Times(r, n - 1) + r
  }

  lemma {:induction false} TimesIsProduct(r: real, n: nat)
    ensures Times(r, n) == r * n as real
  {
    if n > 0 {
      TimesIsProduct(r, n - 1);
      OneMore(r, n as real);
    }
  }

  lemma {:induction false} OneMore(r: real, x: real)
    ensures r * x == r * (x - 1.0) + r
  {
  }

  lemma {:induction false} SumAtMost(ds: seq<real>, r: real)
    requires forall d | d in ds :: d <= r
    ensures SumOf(ds) <= Times(r, |ds|)
    ensures (exists d | d in ds :: d < r) ==> SumOf(ds) < Times(r, |ds|)
  {
    if ds == [] {
    } else {
      var front, last := ds[..|ds| - 1], ds[|ds| - 1];
      assert forall d | d in front :: d in ds;
      assert last in ds && forall d | d in ds :: d in front || d == last;
      SumAtMost(front, r);
    }
  }

  lemma {:induction false} SumAtLeast(ds: seq<real>, r: real)
    requires forall d | d in ds :: d >= r
    ensures SumOf(ds) >= Times(r, |ds|)
    ensures (exists d | d in ds :: d > r) ==> SumOf(ds) > Times(r, |ds|)
  {
    if ds == [] {
    } else {
      var front, last := ds[..|ds| - 1], ds[|ds| - 1];
      assert forall d | d in front :: d in ds;
      assert last in ds && forall d | d in ds :: d in front || d == last;
      SumAtLeast(front, r);
    }
  }

  lemma {:induction false} TimesGrows(x: real, y: real, n: nat)
    requires x < y
    ensures Times(x, n) <= Times(y, n)
    ensures n > 0 ==> Times(x, n) < Times(y, n)
  {
    if n > 0 {
      TimesGrows(x, y, n - 1);
    }
  }

  lemma {:induction false} TimesAdds(r: real, n: nat, k: nat)
    ensures Times(r, n + k) == Times(r, n) + Times(r, k)
  {
    if k > 0 {
      TimesAdds(r, n, k - 1);
    }
  }

  lemma {:induction false} AverageTimes(sum: real, n: nat)
    requires n > 0
    ensures Times(sum / n as real, n) == sum
  {
    TimesIsProduct(sum / n as real, n);
  }

  /** An average is on the side of r that the sum is of as many times r. */
  lemma {:induction false} AverageSide(sum: real, n: nat, r: real)
    requires n > 0
    ensures sum / n as real < r <==> sum < Times(r, n)
    ensures sum / n as real > r <==> sum > Times(r, n)
  {
    var average := sum / n as real;
    AverageTimes(sum, n);
    if average < r {
      TimesGrows(average, r, n);
    } else if average > r {
      TimesGrows(r, average, n);
    }
  }

  /** The route has a reference strictly below the radius and one beyond it. */
  ghost predicate Straddles(refs: seq<Reference>, radius: real, name: string) {
    && (exists d: real :: Reference(name, d) in refs && d < radius)
    && (exists d: real :: Reference(name, d) in refs && d > radius)
  }

  /** With Avg nothing is lost, whatever the routes with this greatest threshold and whatever maxK, exactly
      when no route has a reference strictly below the radius and one beyond it. */
  lemma {:induction false} AverageLosesNothingIff(refs: seq<Reference>, radius: real)
    requires radius >= 0.0
    ensures LosesNothing(Avg, refs, radius) <==> forall name :: !Straddles(refs, radius, name)
  {
    hide LosesNothing, SameBelow, Straddles, Groups, InRange;
    LosesNothingIff(Avg, refs, radius);
    if name :| Straddles(refs, radius, name) {
      AverageOfRoute(refs, radius, name);
    } else {
      forall name ensures SameBelow(Groups(Avg, refs), Groups(Avg, InRange(refs, radius)), radius, name) {
        AverageOfRoute(refs, radius, name);
      }
    }
  }

  lemma {:induction false} AverageOfRoute(refs: seq<Reference>, radius: real, name: string)
    requires radius >= 0.0
    ensures SameBelow(Groups(Avg, refs), Groups(Avg, InRange(refs, radius)), radius, name) <==>
              !Straddles(refs, radius, name)
  {
    hide SameBelow, Groups, InRange, DistancesOf, Near, Far, Reduce;
    var ds := DistancesOf(refs, name);
    DistancesAre(refs, name);
    SameBelowByDistances(Avg, refs, radius, name);
    Splits(ds, radius);
    var near, far := Near(ds, radius), Far(ds, radius);
    if far == [] {
      NothingFar(ds, radius);
      assert !Straddles(refs, radius, name);
    } else {
      assert far[0] in far;
      assert far[0] in ds && far[0] > radius;
      if d :| d in near && d < radius {
        assert d in ds && Straddles(refs, radius, name);
        AverageGrows(ds, radius, d);
      } else {
        NoneBelow(ds, radius);
        assert !Straddles(refs, radius, name);
      }
    }
  }

  /** Distances beyond the radius make an average below it greater. */
  lemma {:induction false} AverageGrows(ds: seq<real>, radius: real, d: real)
    requires d in Near(ds, radius) && d < radius && Far(ds, radius) != []
    ensures ds != [] && Reduce(Avg, Near(ds, radius)) < radius && Reduce(Avg, ds) > Reduce(Avg, Near(ds, radius))
  {
    hide Near, Far;
    var near, far := Near(ds, radius), Far(ds, radius);
    Splits(ds, radius);
    SumSplits(ds, radius);
    SumAtMost(near, radius);
    SumAtLeast(far, radius);
    assert far[0] in far;
    AverageSide(SumOf(near), |near|, radius);
    AverageMoves(SumOf(near), |near|, SumOf(far), |far|, radius);
  }

  lemma {:induction false} AverageMoves(sum: real, n: nat, more: real, k: nat, r: real)
    requires n > 0 && k > 0 && sum / n as real < r && more > Times(r, k)
    ensures (sum + more) / (n + k) as real > sum / n as real
  {
    var average := sum / n as real;
    AverageTimes(sum, n);
    TimesGrows(average, r, k);
    TimesAdds(average, n, k);
    AverageSide(sum + more, n + k, average);
  }

  lemma {:induction false} AverageAtLeast(ds: seq<real>, r: real)
    requires ds != [] && forall d | d in ds :: d >= r
    ensures Reduce(Avg, ds) >= r
  {
    SumAtLeast(ds, r);
    AverageSide(SumOf(ds), |ds|, r);
  }

  /** Without distances below the radius neither average is below it. */
  lemma {:induction false} NoneBelow(ds: seq<real>, radius: real)
    requires forall d | d in ds :: d >= radius
    ensures ds != [] ==> Reduce(Avg, ds) >= radius
    ensures Near(ds, radius) != [] ==> Reduce(Avg, Near(ds, radius)) >= radius
  {
    hide Near, Reduce;
    Splits(ds, radius);
    if ds != [] {
      AverageAtLeast(ds, radius);
    }
    if Near(ds, radius) != [] {
      assert forall d | d in Near(ds, radius) :: d in ds;
      AverageAtLeast(Near(ds, radius), radius);
    }
  }

  /** For instance with references of one route at 2/5 and 4/5 and the threshold 1/2. */
  lemma {:induction false} AverageDiffers()
    ensures !LosesNothing(Avg, [Reference("r", 0.4), Reference("r", 0.8)], 0.5)
  {
    hide LosesNothing;
    var refs := [Reference("r", 0.4), Reference("r", 0.8)];
    assert refs[0] in refs && refs[1] in refs;
    assert Straddles(refs, 0.5, "r");
    AverageLosesNothingIff(refs, 0.5);
  }

  /** The route has a reference beyond the radius, and those within it add up to less than the radius. */
  ghost predicate Undercounted(refs: seq<Reference>, radius: real, name: string) {
    var near := DistancesOf(InRange(refs, radius), name);
    && (exists d: real :: Reference(name, d) in refs && d > radius)
    && near != [] && SumOf(near) < radius
  }

  /** With Sum nothing is lost exactly when no route has a reference beyond the radius and others within it
      that add up to less than the radius. */
  lemma {:induction false} SumLosesNothingIff(refs: seq<Reference>, radius: real)
    requires radius >= 0.0
    ensures LosesNothing(Sum, refs, radius) <==> forall name :: !Undercounted(refs, radius, name)
  {
    hide LosesNothing, SameBelow, Undercounted, Groups, InRange;
    LosesNothingIff(Sum, refs, radius);
    if name :| Undercounted(refs, radius, name) {
      SumOfRoute(refs, radius, name);
    } else {
      forall name ensures SameBelow(Groups(Sum, refs), Groups(Sum, InRange(refs, radius)), radius, name) {
        SumOfRoute(refs, radius, name);
      }
    }
  }

  lemma {:induction false} SumOfRoute(refs: seq<Reference>, radius: real, name: string)
    requires radius >= 0.0
    ensures SameBelow(Groups(Sum, refs), Groups(Sum, InRange(refs, radius)), radius, name) <==>
              !Undercounted(refs, radius, name)
  {
    hide SameBelow, Groups, InRange, DistancesOf, Near, Far;
    var ds := DistancesOf(refs, name);
    DistancesAre(refs, name);
    NearDistances(refs, radius, name);
    SameBelowByDistances(Sum, refs, radius, name);
    Splits(ds, radius);
    SumSplits(ds, radius);
    var near, far := Near(ds, radius), Far(ds, radius);
    if far == [] {
      NothingFar(ds, radius);
      forall d: real | Reference(name, d) in refs ensures d <= radius {
        assert d in ds;
      }
    } else {
      assert far[0] in far && far[0] in ds && Reference(name, far[0]) in refs;
      FarIsMore(far, radius);
      assert near == [] ==> SumOf(near) == 0.0;
    }
  }

  lemma {:induction false} FarIsMore(far: seq<real>, radius: real)
    requires radius >= 0.0 && far != [] && forall d | d in far :: d > radius
    ensures SumOf(far) > radius
  {
    var front, last := far[..|far| - 1], far[|far| - 1];
    assert forall d | d in front :: d in far;
    assert last in far;
    if front != [] {
      FarIsMore(front, radius);
    }
  }
}
