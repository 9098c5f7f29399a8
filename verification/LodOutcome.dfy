/**
 `_resolve` end to end: splitting the prior layers at the do-not-shed floor, the stable
 order of the shed-able ones, the loop, and the totals and directives it reports. The
 outcome is proved independent of the order in which the layers arrive.
 */
module LodOutcome {
  import opened LodResolve

  // ---- The order of shed-able layers ---------------------------------------

  /** Lexicographic order of paths, by code point as Python compares strings. */
  predicate PathLe(a: string, b: string) {
    || a == []
    || (b != [] && (a[0] < b[0] || (a[0] == b[0] && PathLe(a[1..], b[1..]))))
  }

  lemma {:induction false} PathLeTotal(a: string, b: string)
    ensures PathLe(a, b) || PathLe(b, a)
    ensures PathLe(a, b) && PathLe(b, a) ==> a == b
  {
    if a != [] && b != [] && a[0] == b[0] {
      PathLeTotal(a[1..], b[1..]);
      assert a == [a[0]] + a[1..] && b == [b[0]] + b[1..];
    }
  }

  lemma {:induction false} PathLeTransitive(a: string, b: string, c: string)
    requires PathLe(a, b) && PathLe(b, c)
    ensures PathLe(a, c)
  {
    if a != [] && b != [] && c != [] && a[0] == b[0] == c[0] {
      PathLeTransitive(a[1..], b[1..], c[1..]);
    }
  }

  /** The sort key: heaviest authored first, then path. */
  predicate Before(a: Layer, b: Layer) {
    a.triangles > b.triangles || (a.triangles == b.triangles && PathLe(a.path, b.path))
  }

  lemma BeforeOrder(a: Layer, b: Layer, c: Layer)
    ensures Before(a, b) || Before(b, a)
    ensures Before(a, b) && Before(b, a) ==> a.path == b.path
    ensures Before(a, b) && Before(b, c) ==> Before(a, c)
  {
    PathLeTotal(a.path, b.path);
    if PathLe(a.path, b.path) && PathLe(b.path, c.path) { PathLeTransitive(a.path, b.path, c.path); }
  }

  function Insert(x: Layer, xs: seq<Layer>): seq<Layer> {
    if xs == [] || Before(x, xs[0]) then [x] + xs else [xs[0]] + Insert(x, xs[1..])
  }

  /** Python's `sorted`: a stable sort by `Before`. */
  function Sorted(xs: seq<Layer>): seq<Layer> {
    if xs == [] then [] else Insert(xs[0], Sorted(xs[1..]))
  }

  ghost predicate Ordered(xs: seq<Layer>) {
    forall i, j :: 0 <= i < j < |xs| ==> Before(xs[i], xs[j])
  }

  lemma {:induction false} InsertOrdered(x: Layer, xs: seq<Layer>)
    requires Ordered(xs)
    ensures Ordered(Insert(x, xs)) && multiset(Insert(x, xs)) == multiset(xs) + multiset{x}
  {
    if xs == [] {
    } else if Before(x, xs[0]) {
      forall j | 0 <= j < |xs| ensures Before(x, xs[j]) {
        if j != 0 { BeforeOrder(x, xs[0], xs[j]); }
      }
    } else {
      BeforeOrder(x, xs[0], x);
      var rest := Insert(x, xs[1..]);
      InsertOrdered(x, xs[1..]);
      forall j | 0 <= j < |rest| ensures Before(xs[0], rest[j]) {
        assert rest[j] in multiset(rest);
        assert rest[j] == x || rest[j] in xs[1..];
      }
      assert xs == [xs[0]] + xs[1..];
    }
  }

  lemma {:induction false} SortedIsSort(xs: seq<Layer>)
    ensures Ordered(Sorted(xs)) && multiset(Sorted(xs)) == multiset(xs)
  {
    if xs != [] {
      hide Ordered, Insert;
      SortedIsSort(xs[1..]);
      InsertOrdered(xs[0], Sorted(xs[1..]));
      assert xs == [xs[0]] + xs[1..];
    }
  }

  /** No two layers share a path. */
  ghost predicate DistinctPaths(xs: multiset<Layer>) {
    forall a, b :: a in xs && b in xs && a.path == b.path ==> a == b && xs[a] == 1
  }

  /** With distinct paths there is only one sorted arrangement of the same layers. */
  lemma {:induction false} OrderUnique(xs: seq<Layer>, ys: seq<Layer>)
    requires Ordered(xs) && Ordered(ys) && multiset(xs) == multiset(ys) && DistinctPaths(multiset(xs))
    ensures xs == ys
  {
    assert |xs| == |multiset(xs)| == |multiset(ys)| == |ys|;
    if xs != [] {
      HeadsAgree(xs, ys);
      TailMultiset(xs);
      TailMultiset(ys);
      DistinctPathsShrink(multiset(xs), xs[0]);
      OrderUnique(xs[1..], ys[1..]);
      SameHeadAndTail(xs, ys);
    }
  }

  lemma SameHeadAndTail<T>(xs: seq<T>, ys: seq<T>)
    requires xs != [] && ys != [] && xs[0] == ys[0] && xs[1..] == ys[1..]
    ensures xs == ys
  {
    assert xs == [xs[0]] + xs[1..] && ys == [ys[0]] + ys[1..];
  }

  lemma DistinctPathsShrink(m: multiset<Layer>, x: Layer)
    requires DistinctPaths(m)
    ensures DistinctPaths(m - multiset{x})
  {
    forall a, b | a in m - multiset{x} && b in m - multiset{x} && a.path == b.path
      ensures a == b && (m - multiset{x})[a] == 1
    {
      assert a in m && b in m;
    }
  }

  lemma TailMultiset<T>(xs: seq<T>)
    requires xs != []
    ensures multiset(xs[1..]) == multiset(xs) - multiset{xs[0]}
  {
    assert xs == [xs[0]] + xs[1..];
  }

  lemma HeadsAgree(xs: seq<Layer>, ys: seq<Layer>)
    requires Ordered(xs) && Ordered(ys) && multiset(xs) == multiset(ys) && DistinctPaths(multiset(xs))
    requires xs != [] && ys != []
    ensures xs[0] == ys[0]
  {
    assert xs[0] in multiset(ys) && ys[0] in multiset(xs);
    var i :| 0 <= i < |ys| && ys[i] == xs[0];
    var j :| 0 <= j < |xs| && xs[j] == ys[0];
    BeforeOrder(xs[0], ys[0], xs[0]);
  }

  // ---- Splitting the prior layers ------------------------------------------

  predicate Sheddable(floor: set<string>, l: Layer) { l.specialist !in floor && l.triangles > 0.0 }

  function SheddableIn(floor: set<string>): Layer -> bool { (l: Layer) => Sheddable(floor, l) }
  function FlooredIn(floor: set<string>): Layer -> bool { (l: Layer) => l.specialist in floor }

  function Filter(keep: Layer -> bool, xs: seq<Layer>): seq<Layer> {
    if xs == [] then [] else
      var rest := Filter(keep, xs[..|xs| - 1]);
      if keep(xs[|xs| - 1]) then rest + [xs[|xs| - 1]] else rest
  }

  lemma {:induction false} FilterCounts(keep: Layer -> bool, xs: seq<Layer>, x: Layer)
    ensures multiset(Filter(keep, xs))[x] == if keep(x) then multiset(xs)[x] else 0
  {
    if xs != [] {
      var n := |xs| - 1;
      FilterCounts(keep, xs[..n], x);
      assert xs == xs[..n] + [xs[n]];
    }
  }

  function Weights(xs: seq<Layer>): (ws: seq<real>)
    ensures |ws| == |xs|
  {
    seq(|xs|, i requires 0 <= i < |xs| => xs[i].triangles)
  }

  function TrianglesOf(xs: seq<Layer>): real { SumUpTo(Weights(xs), |xs|) }

  lemma {:induction false} SumPrefix(ws: seq<real>, vs: seq<real>, n: nat)
    requires n <= |ws| && n <= |vs| && forall i :: 0 <= i < n ==> ws[i] == vs[i]
    ensures SumUpTo(ws, n) == SumUpTo(vs, n)
  {
    if n != 0 { SumPrefix(ws, vs, n - 1); }
  }

  lemma TrianglesSnoc(xs: seq<Layer>, x: Layer)
    ensures TrianglesOf(xs + [x]) == TrianglesOf(xs) + x.triangles
  {
    SumPrefix(Weights(xs + [x]), Weights(xs), |xs|);
  }

  lemma {:induction false} TrianglesRemove(xs: seq<Layer>, i: nat)
    requires i < |xs|
    ensures TrianglesOf(xs) == TrianglesOf(Without(xs, i)) + xs[i].triangles
  {
    var n := |xs| - 1;
    assert xs == xs[..n] + [xs[n]];
    TrianglesSnoc(xs[..n], xs[n]);
    if i < n {
      TrianglesRemove(xs[..n], i);
      assert Without(xs, i) == Without(xs[..n], i) + [xs[n]];
      TrianglesSnoc(Without(xs[..n], i), xs[n]);
    } else {
      assert Without(xs, i) == xs[..n];
    }
  }

  /** A triangle total does not depend on the order of the layers. */
  lemma {:induction false} TrianglesOfPermutation(xs: seq<Layer>, ys: seq<Layer>)
    requires multiset(xs) == multiset(ys)
    ensures TrianglesOf(xs) == TrianglesOf(ys)
    decreases |xs|
  {
    assert |xs| == |multiset(xs)| == |multiset(ys)| == |ys|;
    if xs != [] {
      assert xs[0] in multiset(ys);
      var i :| 0 <= i < |ys| && ys[i] == xs[0];
      WithoutMultiset(xs, 0);
      WithoutMultiset(ys, i);
      TrianglesOfPermutation(Without(xs, 0), Without(ys, i));
      TrianglesRemove(xs, 0);
      TrianglesRemove(ys, i);
    }
  }

  /** A total splits over two disjoint kinds of layers when the rest weigh nothing. */
  lemma {:induction false} TrianglesSplit(p: Layer -> bool, q: Layer -> bool, xs: seq<Layer>)
    requires forall x :: x in xs ==> !(p(x) && q(x)) && (p(x) || q(x) || x.triangles == 0.0)
    ensures TrianglesOf(xs) == TrianglesOf(Filter(p, xs)) + TrianglesOf(Filter(q, xs))
  {
    if xs != [] {
      var n := |xs| - 1;
      assert xs == xs[..n] + [xs[n]] && xs[n] in xs;
      TrianglesSplit(p, q, xs[..n]);
      TrianglesSnoc(xs[..n], xs[n]);
      TrianglesSnoc(Filter(p, xs[..n]), xs[n]);
      TrianglesSnoc(Filter(q, xs[..n]), xs[n]);
    }
  }

  function Without<T>(xs: seq<T>, i: nat): (ys: seq<T>)
    requires i < |xs|
    ensures |ys| == |xs| - 1
  {
    xs[..i] + xs[i + 1..]
  }

  lemma WithoutMultiset<T>(xs: seq<T>, i: nat)
    requires i < |xs|
    ensures multiset(Without(xs, i)) == multiset(xs) - multiset{xs[i]}
  {
    assert xs == xs[..i] + [xs[i]] + xs[i + 1..];
  }

  // ---- The outcome ---------------------------------------------------------

  function ShedOrder(prior: seq<Layer>, floor: set<string>): seq<Layer> {
    Sorted(Filter(SheddableIn(floor), prior))
  }

  function FloorTotal(prior: seq<Layer>, floor: set<string>): real {
    TrianglesOf(Filter(FlooredIn(floor), prior))
  }

  function DirectivesOf(shed: seq<Layer>, lods: seq<nat>, n: nat): seq<Directive>
    requires |lods| == |shed| && n <= |shed|
  {
    if n == 0 then [] else
      var l, earlier := shed[n - 1], DirectivesOf(shed, lods, n - 1);
      if lods[n - 1] > 0 then earlier + [Directive(l.specialist, l.path, l.triangles, lods[n - 1])] else earlier
  }

  lemma {:induction false} LoopKeepsLength(floorTotal: real, ws: seq<real>, budget: real, lods: seq<nat>, passes: nat)
    requires |lods| == |ws|
    ensures |ResolveLoop(floorTotal, ws, budget, lods, passes).0| == |ws|
    decreases MAX_RESOLVE_PASSES - passes
  {
    if Continues(floorTotal, ws, budget, lods, passes) {
      LoopKeepsLength(floorTotal, ws, budget, Shed(ws, lods), passes + 1);
    }
  }

  function OutcomeOf(floorTotal: real, shed: seq<Layer>, budget: real): Outcome {
    var ws := Weights(shed);
    var (lods, passes) := ResolveLods(floorTotal, ws, budget);
    LoopKeepsLength(floorTotal, ws, budget, Zeros(|ws|), 0);
    Outcome(floorTotal + SumUpTo(ws, |ws|), Effective(floorTotal, ws, lods), passes, DirectivesOf(shed, lods, |shed|))
  }

  /** What `_resolve` returns for these prior layers. */
  function Resolved(prior: seq<Layer>, budget: real, floor: set<string>): Outcome {
    OutcomeOf(FloorTotal(prior, floor), ShedOrder(prior, floor), budget)
  }

  /** With distinct paths the outcome does not depend on the order of the prior layers. */
  lemma OrderIndependent(prior: seq<Layer>, other: seq<Layer>, budget: real, floor: set<string>)
    requires multiset(prior) == multiset(other) && DistinctPaths(multiset(prior))
    ensures Resolved(prior, budget, floor) == Resolved(other, budget, floor)
  {
    var shed, keep := SheddableIn(floor), FlooredIn(floor);
    forall x ensures multiset(Filter(shed, prior))[x] == multiset(Filter(shed, other))[x] <= multiset(prior)[x] {
      FilterCounts(shed, prior, x);
      FilterCounts(shed, other, x);
    }
    forall x ensures multiset(Filter(keep, prior))[x] == multiset(Filter(keep, other))[x] {
      FilterCounts(keep, prior, x);
      FilterCounts(keep, other, x);
    }
    var p, q := Filter(shed, prior), Filter(shed, other);
    assert multiset(p) == multiset(q);
    assert multiset(Filter(keep, prior)) == multiset(Filter(keep, other));
    TrianglesOfPermutation(Filter(keep, prior), Filter(keep, other));
    SortedIsSort(p);
    SortedIsSort(q);
    OrderUnique(Sorted(p), Sorted(q));
  }

  lemma {:induction false} FilterKeeps(keep: Layer -> bool, xs: seq<Layer>)
    ensures forall x :: x in Filter(keep, xs) ==> keep(x) && x in xs
  {
    if xs != [] { FilterKeeps(keep, xs[..|xs| - 1]); }
  }

  /** Only positive layers outside the floor set are ever shed. */
  lemma ShedOrderMembers(prior: seq<Layer>, floor: set<string>)
    ensures forall l :: l in ShedOrder(prior, floor) ==> Sheddable(floor, l) && l in prior
    ensures NonNegative(Weights(ShedOrder(prior, floor)))
  {
    var shed := ShedOrder(prior, floor);
    var kept := Filter(SheddableIn(floor), prior);
    FilterKeeps(SheddableIn(floor), prior);
    SortedIsSort(kept);
    forall l | l in ShedOrder(prior, floor) ensures Sheddable(floor, l) && l in prior {
      assert l in multiset(Sorted(kept));
      assert l in kept;
      assert SheddableIn(floor)(l);
    }
    forall i | 0 <= i < |shed| ensures Weights(shed)[i] >= 0.0 {
      assert shed[i] in shed;
    }
  }

  /**
   What `_resolve` promises, for every list of prior layers, whatever their metrics: the
   effective total is the least any assignment with as few steps could reach, no cheaper
   assignment would have fitted, and the verdict is over budget exactly when nothing
   within the pass cap fits.
   */
  lemma ResolvedOptimal(prior: seq<Layer>, budget: real, floor: set<string>, b: seq<nat>)
    requires Legal(b, |ShedOrder(prior, floor)|)
    ensures var r := Resolved(prior, budget, floor);
      var ws := Weights(ShedOrder(prior, floor));
      var total := Effective(FloorTotal(prior, floor), ws, b);
      && (Steps(b, |ws|) <= r.passes ==> r.effective <= total)
      && (Steps(b, |ws|) < r.passes ==> total > budget)
      && (r.effective > budget && Steps(b, |ws|) <= MAX_RESOLVE_PASSES ==> total > budget)
      && (|ws| <= 85 ==> (r.effective > budget <==> FloorTotal(prior, floor) + SumUpTo(ws, |ws|) / 8.0 > budget))
  {
    ShedOrderMembers(prior, floor);
    var ws := Weights(ShedOrder(prior, floor));
    var floorTotal := FloorTotal(prior, floor);
    ResolveOptimal(floorTotal, ws, budget, b);
    OverBudgetExactly(floorTotal, ws, budget);
    if |ws| <= 85 { OverBudgetAtFloor(floorTotal, ws, budget); }
  }

  // ---- The order of shedding, spelled out ----------------------------------

  lemma {:induction false} FilterConcat(keep: Layer -> bool, xs: seq<Layer>, ys: seq<Layer>)
    ensures Filter(keep, xs + ys) == Filter(keep, xs) + Filter(keep, ys)
    decreases |ys|
  {
    if ys == [] {
      assert xs + ys == xs;
    } else {
      var n := |ys| - 1;
      assert (xs + ys)[..|xs| + n] == xs + ys[..n];
      FilterConcat(keep, xs, ys[..n]);
    }
  }

  lemma FilterOne(keep: Layer -> bool, x: Layer)
    ensures Filter(keep, [x]) == if keep(x) then [x] else []
  {
    assert [x][..0] == [];
  }

  /** Layers that tie on both sort keys. */
  predicate SameKeys(a: Layer, b: Layer) { a.triangles == b.triangles && a.path == b.path }

  function TiedWith(a: Layer): Layer -> bool { (b: Layer) => SameKeys(a, b) }

  lemma {:induction false} InsertStable(x: Layer, xs: seq<Layer>, a: Layer)
    ensures Filter(TiedWith(a), Insert(x, xs)) == Filter(TiedWith(a), [x] + xs)
  {
    hide Before, SameKeys, Filter;
    if xs != [] && !Before(x, xs[0]) {
      InsertStable(x, xs[1..], a);
      StepPast(x, xs[0], a);
      FilterConcat(TiedWith(a), [xs[0]], Insert(x, xs[1..]));
      FilterConcat(TiedWith(a), [xs[0]], [x] + xs[1..]);
      FilterSwap(x, xs[0], xs[1..], a);
      assert xs == [xs[0]] + xs[1..];
    }
  }

  lemma FilterSwap(x: Layer, y: Layer, rest: seq<Layer>, a: Layer)
    requires Filter(TiedWith(a), [x] + [y]) == Filter(TiedWith(a), [y] + [x])
    ensures Filter(TiedWith(a), [y] + ([x] + rest)) == Filter(TiedWith(a), [x] + ([y] + rest))
  {
    hide Filter;
    assert [y] + ([x] + rest) == [y] + [x] + rest && [x] + ([y] + rest) == [x] + [y] + rest;
    FilterConcat(TiedWith(a), [y] + [x], rest);
    FilterConcat(TiedWith(a), [x] + [y], rest);
  }

  /** A layer steps past another only when they do not tie. */
  lemma StepPast(x: Layer, y: Layer, a: Layer)
    requires !Before(x, y)
    ensures Filter(TiedWith(a), [x] + [y]) == Filter(TiedWith(a), [y] + [x])
  {
    BeforeOrder(x, y, x);
    PathLeTotal(x.path, x.path);
    FilterConcat(TiedWith(a), [x], [y]);
    FilterConcat(TiedWith(a), [y], [x]);
    FilterOne(TiedWith(a), x);
    FilterOne(TiedWith(a), y);
    hide Filter;
    assert !(SameKeys(a, x) && SameKeys(a, y));
  }

  lemma {:induction false} SortedStable(xs: seq<Layer>, a: Layer)
    ensures Filter(TiedWith(a), Sorted(xs)) == Filter(TiedWith(a), xs)
  {
    if xs != [] {
      SortedStable(xs[1..], a);
      InsertStable(xs[0], Sorted(xs[1..]), a);
      FilterConcat(TiedWith(a), [xs[0]], Sorted(xs[1..]));
      FilterConcat(TiedWith(a), [xs[0]], xs[1..]);
      assert xs == [xs[0]] + xs[1..];
    }
  }

  /**
   The order in which layers are considered: heaviest authored first, then by path, and layers that
   tie on both in their prior order; every positive layer outside the floor set, and no other.
   */
  lemma ShedOrderSorted(prior: seq<Layer>, floor: set<string>)
    ensures var shed := ShedOrder(prior, floor);
      && (forall i, j :: 0 <= i < j < |shed| ==>
          || shed[i].triangles > shed[j].triangles
          || (shed[i].triangles == shed[j].triangles && PathLe(shed[i].path, shed[j].path)))
      && (forall l :: multiset(shed)[l]
            == if l.specialist !in floor && l.triangles > 0.0 then multiset(prior)[l] else 0)
      && (forall l :: Filter(TiedWith(l), shed) == Filter(TiedWith(l), Filter(SheddableIn(floor), prior)))
  {
    var kept := Filter(SheddableIn(floor), prior);
    var shed := ShedOrder(prior, floor);
    SortedIsSort(kept);
    forall i, j | 0 <= i < j < |shed|
      ensures shed[i].triangles > shed[j].triangles
        || (shed[i].triangles == shed[j].triangles && PathLe(shed[i].path, shed[j].path))
    {
      assert Before(shed[i], shed[j]);
    }
    forall l
      ensures multiset(shed)[l] == if l.specialist !in floor && l.triangles > 0.0 then multiset(prior)[l] else 0
    {
      FilterCounts(SheddableIn(floor), prior, l);
    }
    forall l ensures Filter(TiedWith(l), shed) == Filter(TiedWith(l), kept) { SortedStable(kept, l); }
  }

  /** What layer i currently contributes. */
  function Current(shed: seq<Layer>, lods: seq<nat>, i: nat): real
    requires |lods| == |shed| && i < |shed|
  {
    shed[i].triangles * LodScale(lods[i])
  }

  /** Layer t weighs more now than layer j, or as much and comes first. */
  ghost predicate Outweighs(shed: seq<Layer>, lods: seq<nat>, t: nat, j: nat)
    requires |lods| == |shed| && t < |shed| && j < |shed|
  {
    Current(shed, lods, t) > Current(shed, lods, j) || (Current(shed, lods, t) == Current(shed, lods, j) && t < j)
  }

  /** What a pass does: it drops one more level on the heaviest current contributor that has levels left. */
  ghost predicate PassTaken(shed: seq<Layer>, lods: seq<nat>, next: seq<nat>, t: nat)
    requires |lods| == |shed|
  {
    && t < |shed| && lods[t] < MAX_LOD && next == lods[t := lods[t] + 1]
    && forall j :: 0 <= j < |shed| && j != t && lods[j] < MAX_LOD ==> Outweighs(shed, lods, t, j)
  }

  lemma HeaviestOutweighs(shed: seq<Layer>, lods: seq<nat>, t: nat, j: nat)
    requires |lods| == |shed| && t == Heaviest(Weights(shed), lods, |shed|)
    requires j < |shed| && j != t && lods[j] < MAX_LOD
    ensures Outweighs(shed, lods, t, j)
  {
    hide Heaviest, LodScale, Contribution, Weights, Current;
    CurrentWeight(shed, lods, j);
    CurrentWeight(shed, lods, t);
  }

  lemma PassIsTaken(shed: seq<Layer>, lods: seq<nat>)
    requires |lods| == |shed| && Heaviest(Weights(shed), lods, |shed|) >= 0
    ensures PassTaken(shed, lods, Shed(Weights(shed), lods), Heaviest(Weights(shed), lods, |shed|))
  {
    hide Heaviest, Outweighs, Contribution, Weights;
    var t := Heaviest(Weights(shed), lods, |shed|);
    forall j | 0 <= j < |shed| && j != t && lods[j] < MAX_LOD ensures Outweighs(shed, lods, t, j) {
      HeaviestOutweighs(shed, lods, t, j);
    }
  }

  lemma CurrentWeight(shed: seq<Layer>, lods: seq<nat>, i: nat)
    requires |lods| == |shed| && i < |shed|
    ensures Contribution(Weights(shed)[i], lods[i]) == Current(shed, lods, i)
  {
    hide LodScale;
  }

  ghost predicate SomePass(shed: seq<Layer>, lods: seq<nat>, next: seq<nat>)
    requires |lods| == |shed|
  {
    exists t: nat :: PassTaken(shed, lods, next, t)
  }

  /** The levels before each pass and after the last: every pass is taken over budget, and they stop in time. */
  ghost predicate PassesTaken(floorTotal: real, shed: seq<Layer>, budget: real, levels: seq<seq<nat>>) {
    && levels != [] && (forall i :: 0 <= i < |levels| ==> |levels[i]| == |shed|)
    && (forall i :: 0 <= i < |levels| - 1 ==>
        && Effective(floorTotal, Weights(shed), levels[i]) > budget
        && SomePass(shed, levels[i], levels[i + 1]))
  }

  lemma {:induction false} LoopPasses(floorTotal: real, shed: seq<Layer>, budget: real, lods: seq<nat>, passes: nat)
    returns (levels: seq<seq<nat>>)
    requires |lods| == |shed| && passes <= MAX_RESOLVE_PASSES
    ensures var (g, k) := ResolveLoop(floorTotal, Weights(shed), budget, lods, passes);
      && PassesTaken(floorTotal, shed, budget, levels)
      && |levels| == k - passes + 1 && levels[0] == lods && levels[|levels| - 1] == g && k <= MAX_RESOLVE_PASSES
      && (k == MAX_RESOLVE_PASSES || Effective(floorTotal, Weights(shed), g) <= budget
          || forall i :: 0 <= i < |shed| ==> g[i] >= MAX_LOD)
    decreases MAX_RESOLVE_PASSES - passes
  {
    var ws := Weights(shed);
    if Continues(floorTotal, ws, budget, lods, passes) {
      PassIsTaken(shed, lods);
      var next := Shed(ws, lods);
      var rest := LoopPasses(floorTotal, shed, budget, next, passes + 1);
      levels := [lods] + rest;
      LevelsPrepended(floorTotal, shed, budget, lods, rest, Heaviest(ws, lods, |shed|));
    } else {
      levels := [lods];
    }
  }

  lemma LevelsPrepended(floorTotal: real, shed: seq<Layer>, budget: real, lods: seq<nat>, rest: seq<seq<nat>>, t: nat)
    requires PassesTaken(floorTotal, shed, budget, rest) && |lods| == |shed|
    requires Effective(floorTotal, Weights(shed), lods) > budget && PassTaken(shed, lods, rest[0], t)
    ensures PassesTaken(floorTotal, shed, budget, [lods] + rest)
  {
    var levels := [lods] + rest;
    hide PassTaken, Effective;
    forall i | 0 <= i < |levels| - 1
      ensures Effective(floorTotal, Weights(shed), levels[i]) > budget
      ensures SomePass(shed, levels[i], levels[i + 1])
    {
      if i == 0 {
        assert PassTaken(shed, levels[0], levels[1], t);
      } else {
        assert levels[i] == rest[i - 1] && levels[i + 1] == rest[i - 1 + 1];
      }
    }
  }

  /**
   The passes of `_resolve`, one by one: from no level at all, each pass taken over budget drops the
   heaviest current contributor, equal ones going to the earlier in shed order, and so to the heavier
   authored layer and then the smaller path; they stop once the world fits, nothing is left, or the cap.
   */
  lemma ResolvePasses(prior: seq<Layer>, budget: real, floor: set<string>) returns (levels: seq<seq<nat>>)
    ensures var shed := ShedOrder(prior, floor);
      var r := Resolved(prior, budget, floor);
      && PassesTaken(FloorTotal(prior, floor), shed, budget, levels)
      && |levels| == r.passes + 1 && r.passes <= MAX_RESOLVE_PASSES && levels[0] == Zeros(|shed|)
      && r.effective == Effective(FloorTotal(prior, floor), Weights(shed), levels[r.passes])
      && r.directives == DirectivesOf(shed, levels[r.passes], |shed|)
      && (r.passes == MAX_RESOLVE_PASSES || r.effective <= budget
          || forall i :: 0 <= i < |shed| ==> levels[r.passes][i] >= MAX_LOD)
  {
    hide PassesTaken, Effective, ResolveLoop, ShedOrder, FloorTotal, DirectivesOf;
    var shed := ShedOrder(prior, floor);
    levels := LoopPasses(FloorTotal(prior, floor), shed, budget, Zeros(|shed|), 0);
  }

  /** A tie between current contributions is won by the heavier authored layer, then by the smaller path. */
  lemma TieBreak(prior: seq<Layer>, floor: set<string>, lods: seq<nat>, next: seq<nat>, t: nat, j: nat)
    requires |lods| == |ShedOrder(prior, floor)| && PassTaken(ShedOrder(prior, floor), lods, next, t)
    requires j < |lods| && j != t && lods[j] < MAX_LOD
    requires Current(ShedOrder(prior, floor), lods, j) == Current(ShedOrder(prior, floor), lods, t)
    ensures var shed := ShedOrder(prior, floor);
      || shed[t].triangles > shed[j].triangles
      || (shed[t].triangles == shed[j].triangles && PathLe(shed[t].path, shed[j].path))
  {
    ShedOrderSorted(prior, floor);
    hide ShedOrder;
  }

  ghost predicate Increasing(idx: seq<nat>, n: nat) {
    && (forall a, b :: 0 <= a < b < |idx| ==> idx[a] < idx[b])
    && forall a :: 0 <= a < |idx| ==> idx[a] < n
  }

  /** The layers at these places, each with its own figures and level. */
  ghost predicate Reports(ds: seq<Directive>, shed: seq<Layer>, lods: seq<nat>, idx: seq<nat>)
    requires |lods| == |shed|
  {
    && |ds| == |idx|
    && forall a :: 0 <= a < |idx| ==>
         && idx[a] < |shed| && ds[a].specialist == shed[idx[a]].specialist && ds[a].path == shed[idx[a]].path
         && ds[a].authored == shed[idx[a]].triangles && ds[a].level == lods[idx[a]]
  }

  /** The places, below n, of the layers shed. */
  ghost predicate Places(idx: seq<nat>, lods: seq<nat>, n: nat)
    requires n <= |lods|
  {
    Increasing(idx, n) && forall i: nat :: i in idx <==> i < n && lods[i] > 0
  }

  lemma PlacesOne(idx: seq<nat>, lods: seq<nat>, n: nat)
    requires n < |lods| && Places(idx, lods, n)
    ensures Places(if lods[n] > 0 then idx + [n] else idx, lods, n + 1)
  {}

  lemma NothingShown(shed: seq<Layer>, lods: seq<nat>)
    requires |lods| == |shed|
    ensures Places([], lods, 0) && Reports([], shed, lods, [])
  {}

  /** The directives report exactly the layers shed, in order, each with its own figures. */
  lemma {:induction false} DirectivesExact(shed: seq<Layer>, lods: seq<nat>, n: nat) returns (idx: seq<nat>)
    requires |lods| == |shed| && n <= |shed|
    ensures Places(idx, lods, n) && Reports(DirectivesOf(shed, lods, n), shed, lods, idx)
  {
    hide Reports, Places;
    if n == 0 {
      idx := [];
      NothingShown(shed, lods);
    } else {
      var earlier := DirectivesExact(shed, lods, n - 1);
      idx := if lods[n - 1] > 0 then earlier + [n - 1] else earlier;
      PlacesOne(earlier, lods, n - 1);
      ReportsOne(DirectivesOf(shed, lods, n - 1), shed, lods, earlier, n - 1);
    }
  }

  lemma ReportsOne(ds: seq<Directive>, shed: seq<Layer>, lods: seq<nat>, idx: seq<nat>, i: nat)
    requires |lods| == |shed| && i < |shed| && Reports(ds, shed, lods, idx)
    ensures var l := shed[i];
      Reports(ds + [Directive(l.specialist, l.path, l.triangles, lods[i])], shed, lods, idx + [i])
  {}

  /** With no negative metric the authored total is that of all prior layers. */
  lemma AuthoredTotal(prior: seq<Layer>, budget: real, floor: set<string>)
    requires forall l :: l in prior ==> l.triangles >= 0.0
    ensures Resolved(prior, budget, floor).authored == TrianglesOf(prior)
  {
    var kept := Filter(SheddableIn(floor), prior);
    SortedIsSort(kept);
    TrianglesOfPermutation(ShedOrder(prior, floor), kept);
    TrianglesSplit(FlooredIn(floor), SheddableIn(floor), prior);
  }

  // ---- The loop as written -------------------------------------------------

  /** `max` over the candidates by (current contribution, -index). */
  method PickHeaviest(ws: seq<real>, lods: seq<nat>) returns (target: int)
    requires |lods| == |ws|
    ensures target == Heaviest(ws, lods, |ws|)
  {
    target := -1;
    for i := 0 to |ws|
      invariant target == Heaviest(ws, lods, i)
    {
      if lods[i] < MAX_LOD && (target < 0 || Contribution(ws[target], lods[target]) < Contribution(ws[i], lods[i])) {
        target := i;
      }
    }
  }

  method CollectDirectives(shed: seq<Layer>, lods: seq<nat>) returns (directives: seq<Directive>)
    requires |lods| == |shed|
    ensures directives == DirectivesOf(shed, lods, |shed|)
  {
    directives := [];
    for i := 0 to |shed|
      invariant directives == DirectivesOf(shed, lods, i)
    {
      if lods[i] > 0 {
        directives := directives + [Directive(shed[i].specialist, shed[i].path, shed[i].triangles, lods[i])];
      }
    }
  }

  /** The while loop. */
  method ResolveLevels(floorTotal: real, ws: seq<real>, budget: real) returns (lods: seq<nat>, passes: nat)
    ensures (lods, passes) == ResolveLods(floorTotal, ws, budget) && |lods| == |ws|
  {
    hide Effective, Heaviest;
    lods, passes := Zeros(|ws|), 0;
    while Effective(floorTotal, ws, lods) > budget && passes < MAX_RESOLVE_PASSES
      invariant |lods| == |ws| && passes <= MAX_RESOLVE_PASSES
      invariant ResolveLoop(floorTotal, ws, budget, lods, passes) == ResolveLods(floorTotal, ws, budget)
      decreases MAX_RESOLVE_PASSES - passes
    {
      var target := PickHeaviest(ws, lods);
      if target < 0 {
        break;
      }
      lods := lods[target := lods[target] + 1];
      passes := passes + 1;
    }
  }

  /** `_resolve`. */
  method Resolve(prior: seq<Layer>, budget: real, floor: set<string>) returns (r: Outcome)
    ensures r == Resolved(prior, budget, floor)
  {
    var floorTotal := FloorTotal(prior, floor);
    var shed := ShedOrder(prior, floor);
    var ws := Weights(shed);
    var lods, passes := ResolveLevels(floorTotal, ws, budget);
    var directives := CollectDirectives(shed, lods);
    r := Outcome(floorTotal + SumUpTo(ws, |ws|), Effective(floorTotal, ws, lods), passes, directives);
  }
}
