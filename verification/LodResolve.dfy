/**
 The triangle-budget resolver: a greedy loop that halves the heaviest current layer until
 the world fits. Triangle counts are exact reals; a missing metric is 0.
 */
module LodResolve {
  datatype Layer = Layer(specialist: string, path: string, triangles: real)

  /** One shed layer as `_resolve` reports it. */
  datatype Directive = Directive(specialist: string, path: string, authored: real, level: nat)

  datatype Outcome = Outcome(authored: real, effective: real, passes: nat, directives: seq<Directive>)

  const MAX_LOD: nat := 3
  const MAX_RESOLVE_PASSES: nat := 256

  // ---- Levels, contributions, totals ---------------------------------------

  function LodScale(level: nat): real {
    if level == 0 then 1.0 else LodScale(level - 1) / 2.0
  }

  function Contribution(authored: real, level: nat): real { authored * LodScale(level) }

  lemma ContributionHalves(authored: real, level: nat)
    ensures Contribution(authored, level + 1) == Contribution(authored, level) / 2.0
    ensures Contribution(authored, 0) == authored
  {
    assert LodScale(level + 1) == LodScale(level) / 2.0;
  }

  lemma ContributionTable(w: real)
    ensures Contribution(w, 0) == w && Contribution(w, 1) == w / 2.0
    ensures Contribution(w, 2) == w / 4.0 && Contribution(w, 3) == w / 8.0
  {
    ContributionHalves(w, 0);
    ContributionHalves(w, 1);
    ContributionHalves(w, 2);
  }

  /** A level for each of the shed-able layers, none past the floor. */
  predicate Legal(lods: seq<nat>, n: nat) {
    |lods| == n && forall i :: 0 <= i < n ==> lods[i] <= MAX_LOD
  }

  function Total(ws: seq<real>, lods: seq<nat>, n: nat): real
    requires n <= |ws| && n <= |lods|
  {
    if n == 0 then 0.0 else Total(ws, lods, n - 1) + Contribution(ws[n - 1], lods[n - 1])
  }

  function Steps(lods: seq<nat>, n: nat): nat
    requires n <= |lods|
  {
    if n == 0 then 0 else Steps(lods, n - 1) + lods[n - 1]
  }

  function SumUpTo(ws: seq<real>, n: nat): real
    requires n <= |ws|
  {
    if n == 0 then 0.0 else SumUpTo(ws, n - 1) + ws[n - 1]
  }

  function Effective(floorTotal: real, ws: seq<real>, lods: seq<nat>): real
    requires |lods| == |ws|
  {
    floorTotal + Total(ws, lods, |ws|)
  }

  lemma {:induction false} BumpEffect(ws: seq<real>, lods: seq<nat>, i: nat, level: nat, n: nat)
    requires |lods| == |ws| && i < |ws| && n <= |ws|
    ensures Steps(lods[i := level], n) == Steps(lods, n) + (if i < n then level - lods[i] else 0)
    ensures Total(ws, lods[i := level], n) == Total(ws, lods, n)
      + (if i < n then Contribution(ws[i], level) - Contribution(ws[i], lods[i]) else 0.0)
  {
    if n != 0 { BumpEffect(ws, lods, i, level, n - 1); }
  }

  // ---- The greedy choice ---------------------------------------------------

  /** The first of the heaviest current contributors below the floor level, or -1. */
  function Heaviest(ws: seq<real>, lods: seq<nat>, n: nat): (t: int)
    requires |lods| == |ws| && n <= |ws|
    ensures -1 <= t < n && (t >= 0 ==> lods[t] < MAX_LOD)
    ensures forall j :: 0 <= j < n && lods[j] < MAX_LOD ==>
      t >= 0 && Contribution(ws[j], lods[j]) <= Contribution(ws[t], lods[t])
      && (j < t ==> Contribution(ws[j], lods[j]) < Contribution(ws[t], lods[t]))
  {
    if n == 0 then -1 else
      var t := Heaviest(ws, lods, n - 1);
      if lods[n - 1] < MAX_LOD && (t < 0 || Contribution(ws[t], lods[t]) < Contribution(ws[n - 1], lods[n - 1]))
      then n - 1 else t
  }

  /** The loop guard, with the early exit when every layer is at its floor. */
  predicate Continues(floorTotal: real, ws: seq<real>, budget: real, lods: seq<nat>, passes: nat)
    requires |lods| == |ws|
  {
    Effective(floorTotal, ws, lods) > budget && passes < MAX_RESOLVE_PASSES && Heaviest(ws, lods, |ws|) >= 0
  }

  /** One pass: the heaviest current contributor drops one level. */
  function Shed(ws: seq<real>, lods: seq<nat>): (r: seq<nat>)
    requires |lods| == |ws| && Heaviest(ws, lods, |ws|) >= 0
    ensures |r| == |lods|
  {
    var t := Heaviest(ws, lods, |ws|);
    lods[t := lods[t] + 1]
  }

  /** The while loop of `_resolve`, from the given levels and pass count. */
  function ResolveLoop(floorTotal: real, ws: seq<real>, budget: real, lods: seq<nat>, passes: nat): (seq<nat>, nat)
    requires |lods| == |ws|
    decreases MAX_RESOLVE_PASSES - passes
  {
    if Continues(floorTotal, ws, budget, lods, passes)
    then ResolveLoop(floorTotal, ws, budget, Shed(ws, lods), passes + 1)
    else (lods, passes)
  }

  function Zeros(n: nat): seq<nat> { seq(n, _ => 0) }

  function ResolveLods(floorTotal: real, ws: seq<real>, budget: real): (seq<nat>, nat) {
    ResolveLoop(floorTotal, ws, budget, Zeros(|ws|), 0)
  }

  // ---- Greedy is optimal ---------------------------------------------------

  ghost predicate NonNegative(ws: seq<real>) { forall i :: 0 <= i < |ws| ==> ws[i] >= 0.0 }

  /** Every step taken gained at least as much as every step still available. */
  ghost predicate Balanced(ws: seq<real>, lods: seq<nat>)
    requires |lods| == |ws|
  {
    forall i, j :: 0 <= i < |ws| && 0 <= j < |ws| && lods[i] > 0 && lods[j] < MAX_LOD ==>
      Contribution(ws[i], lods[i] - 1) >= Contribution(ws[j], lods[j])
  }

  lemma GreedyKeepsBalance(ws: seq<real>, lods: seq<nat>, t: nat)
    requires NonNegative(ws) && Legal(lods, |ws|) && Balanced(ws, lods)
    requires t == Heaviest(ws, lods, |ws|)
    ensures Legal(lods[t := lods[t] + 1], |ws|) && Balanced(ws, lods[t := lods[t] + 1])
  {
    StepDown(ws[t], lods[t]);
    hide Contribution;
    var next := lods[t := lods[t] + 1];
    forall i, j | 0 <= i < |ws| && 0 <= j < |ws| && next[i] > 0 && next[j] < MAX_LOD
      ensures Contribution(ws[i], next[i] - 1) >= Contribution(ws[j], next[j])
    {
      assert Contribution(ws[j], next[j]) <= Contribution(ws[j], lods[j]);
    }
  }

  /** One more level never weighs more. */
  lemma StepDown(w: real, level: nat)
    requires w >= 0.0 && level < MAX_LOD
    ensures Contribution(w, level + 1) <= Contribution(w, level)
  {
    ContributionTable(w);
    hide LodScale;
  }

  /** Moving one layer from level g to level b, priced at the threshold gain h per step. */
  lemma Exchange(w: real, g: nat, b: nat, h: real)
    requires w >= 0.0 && g <= MAX_LOD && b <= MAX_LOD && h >= 0.0
    requires g < MAX_LOD ==> Contribution(w, g) <= 2.0 * h
    requires g > 0 ==> Contribution(w, g - 1) >= 2.0 * h
    ensures Contribution(w, b) - Contribution(w, g) >= (g as int - b as int) as real * h
  {
    ContributionTable(w);
    var lead := (g as int - b as int) as real;
    assert lead in {-3.0, -2.0, -1.0, 0.0, 1.0, 2.0, 3.0};
  }

  /** The price of the steps by which g leads b over the first n layers. */
  ghost function Lead(g: seq<nat>, b: seq<nat>, h: real, n: nat): real
    requires n <= |g| && n <= |b|
  {
    if n == 0 then 0.0 else Lead(g, b, h, n - 1) + (g[n - 1] as int - b[n - 1] as int) as real * h
  }

  lemma {:induction false} LeadIsSteps(g: seq<nat>, b: seq<nat>, h: real, n: nat)
    requires n <= |g| && n <= |b|
    ensures Lead(g, b, h, n) == (Steps(g, n) as int - Steps(b, n) as int) as real * h
  {
    if n != 0 {
      LeadIsSteps(g, b, h, n - 1);
      hide Steps;
      StepsLast(g, n);
      StepsLast(b, n);
      Distribute(Steps(g, n - 1) as int - Steps(b, n - 1) as int, g[n - 1] as int - b[n - 1] as int, h);
    }
  }

  lemma StepsLast(lods: seq<nat>, n: nat)
    requires 0 < n <= |lods|
    ensures Steps(lods, n) == Steps(lods, n - 1) + lods[n - 1]
  {}

  lemma Distribute(x: int, y: int, h: real)
    ensures (x + y) as real * h == x as real * h + y as real * h
  {
    assert (x + y) as real == x as real + y as real;
  }

  lemma {:induction false} ExchangeAll(ws: seq<real>, g: seq<nat>, b: seq<nat>, h: real, n: nat)
    requires NonNegative(ws) && Legal(g, |ws|) && Legal(b, |ws|) && n <= |ws| && h >= 0.0
    requires forall j :: 0 <= j < |ws| && g[j] < MAX_LOD ==> Contribution(ws[j], g[j]) <= 2.0 * h
    requires forall i :: 0 <= i < |ws| && g[i] > 0 ==> Contribution(ws[i], g[i] - 1) >= 2.0 * h
    ensures Total(ws, b, n) - Total(ws, g, n) >= Lead(g, b, h, n)
  {
    hide Contribution;
    if n != 0 {
      ExchangeAll(ws, g, b, h, n - 1);
      Exchange(ws[n - 1], g[n - 1], b[n - 1], h);
    }
  }

  /** The gain, per step, that separates the steps taken from those still available. */
  lemma Threshold(ws: seq<real>, g: seq<nat>) returns (h: real)
    requires NonNegative(ws) && Legal(g, |ws|) && Balanced(ws, g)
    ensures h >= 0.0
    ensures forall j :: 0 <= j < |ws| && g[j] < MAX_LOD ==> Contribution(ws[j], g[j]) <= 2.0 * h
    ensures forall i :: 0 <= i < |ws| && g[i] > 0 ==> Contribution(ws[i], g[i] - 1) >= 2.0 * h
  {
    var t := Heaviest(ws, g, |ws|);
    if t < 0 {
      h := 0.0;
      forall i | 0 <= i < |ws| && g[i] > 0
        ensures Contribution(ws[i], g[i] - 1) >= 0.0
      {
        ContributionTable(ws[i]);
      }
    } else {
      h := Contribution(ws[t], g[t]) / 2.0;
      ContributionTable(ws[t]);
    }
  }

  /** No legal assignment with at most as many steps has a smaller total. */
  lemma BalancedIsOptimal(ws: seq<real>, g: seq<nat>, b: seq<nat>)
    requires NonNegative(ws) && Legal(g, |ws|) && Legal(b, |ws|) && Balanced(ws, g)
    requires Steps(b, |ws|) <= Steps(g, |ws|)
    ensures Total(ws, b, |ws|) >= Total(ws, g, |ws|)
  {
    var h := Threshold(ws, g);
    ExchangeAll(ws, g, b, h, |ws|);
    LeadIsSteps(g, b, h, |ws|);
    var lead := (Steps(g, |ws|) as int - Steps(b, |ws|) as int) as real;
    ProductNonNegative(lead, h);
  }

  lemma ProductNonNegative(x: real, y: real)
    requires x >= 0.0 && y >= 0.0
    ensures x * y >= 0.0
  {}

  /** Nothing cheaper than k steps fits. */
  ghost predicate NothingFits(floorTotal: real, ws: seq<real>, budget: real, k: nat) {
    forall b: seq<nat> :: Legal(b, |ws|) && Steps(b, |ws|) < k ==> Effective(floorTotal, ws, b) > budget
  }

  /** What holds before every pass of the loop. */
  ghost predicate LoopInv(floorTotal: real, ws: seq<real>, budget: real, lods: seq<nat>, passes: nat) {
    && NonNegative(ws) && Legal(lods, |ws|) && Balanced(ws, lods) && passes <= MAX_RESOLVE_PASSES
    && Steps(lods, |ws|) == passes && NothingFits(floorTotal, ws, budget, passes)
  }

  lemma PassKeepsInv(floorTotal: real, ws: seq<real>, budget: real, lods: seq<nat>, passes: nat)
    requires LoopInv(floorTotal, ws, budget, lods, passes)
    requires Continues(floorTotal, ws, budget, lods, passes)
    ensures LoopInv(floorTotal, ws, budget, Shed(ws, lods), passes + 1)
  {
    var t := Heaviest(ws, lods, |ws|);
    GreedyKeepsBalance(ws, lods, t);
    BumpEffect(ws, lods, t, lods[t] + 1, |ws|);
    forall b: seq<nat> | Legal(b, |ws|) && Steps(b, |ws|) < passes + 1
      ensures Effective(floorTotal, ws, b) > budget
    {
      BalancedIsOptimal(ws, lods, b);
    }
  }

  lemma {:induction false} LoopEnds(floorTotal: real, ws: seq<real>, budget: real, lods: seq<nat>, passes: nat)
    requires LoopInv(floorTotal, ws, budget, lods, passes)
    ensures var r := ResolveLoop(floorTotal, ws, budget, lods, passes);
      LoopInv(floorTotal, ws, budget, r.0, r.1) && !Continues(floorTotal, ws, budget, r.0, r.1)
    decreases MAX_RESOLVE_PASSES - passes
  {
    if Continues(floorTotal, ws, budget, lods, passes) {
      PassKeepsInv(floorTotal, ws, budget, lods, passes);
      LoopEnds(floorTotal, ws, budget, Shed(ws, lods), passes + 1);
    }
  }

  lemma {:induction false} ZerosSteps(n: nat, k: nat)
    requires k <= n
    ensures Steps(Zeros(n), k) == 0
  {
    if k != 0 { ZerosSteps(n, k - 1); }
  }

  lemma StartInv(floorTotal: real, ws: seq<real>, budget: real)
    requires NonNegative(ws)
    ensures LoopInv(floorTotal, ws, budget, Zeros(|ws|), 0)
  {
    ZerosSteps(|ws|, |ws|);
  }

  /**
   Greedy optimality. With k passes run, no legal assignment with at most k steps has a
   smaller total; and when the world fits, no assignment with fewer steps would have.
   */
  lemma ResolveOptimal(floorTotal: real, ws: seq<real>, budget: real, b: seq<nat>)
    requires NonNegative(ws) && Legal(b, |ws|)
    ensures var (g, k) := ResolveLods(floorTotal, ws, budget);
      && Legal(g, |ws|) && Steps(g, |ws|) == k <= MAX_RESOLVE_PASSES
      && (Steps(b, |ws|) <= k ==> Effective(floorTotal, ws, g) <= Effective(floorTotal, ws, b))
      && (Steps(b, |ws|) < k ==> Effective(floorTotal, ws, b) > budget)
  {
    StartInv(floorTotal, ws, budget);
    LoopEnds(floorTotal, ws, budget, Zeros(|ws|), 0);
    var (g, k) := ResolveLods(floorTotal, ws, budget);
    if Steps(b, |ws|) <= k { BalancedIsOptimal(ws, g, b); }
  }

  lemma {:induction false} FloorTotals(ws: seq<real>, b: seq<nat>, n: nat)
    requires NonNegative(ws) && Legal(b, |ws|) && n <= |ws|
    ensures Total(ws, b, n) >= SumUpTo(ws, n) / 8.0
    ensures (forall i :: 0 <= i < n ==> b[i] == MAX_LOD) ==> Total(ws, b, n) == SumUpTo(ws, n) / 8.0
    ensures Steps(b, n) <= MAX_LOD * n
    ensures (forall i :: 0 <= i < n ==> b[i] == MAX_LOD) ==> Steps(b, n) == MAX_LOD * n
  {
    if n != 0 {
      FloorTotals(ws, b, n - 1);
      ContributionTable(ws[n - 1]);
    }
  }

  /**
   Shedding is complete, for every number of layers: the verdict is over budget exactly when
   no legal assignment of at most 256 steps fits.
   */
  lemma OverBudgetExactly(floorTotal: real, ws: seq<real>, budget: real)
    requires NonNegative(ws)
    ensures var (g, k) := ResolveLods(floorTotal, ws, budget);
      |g| == |ws| &&
      (Effective(floorTotal, ws, g) > budget <==> NothingFits(floorTotal, ws, budget, MAX_RESOLVE_PASSES + 1))
  {
    StartInv(floorTotal, ws, budget);
    LoopEnds(floorTotal, ws, budget, Zeros(|ws|), 0);
    var (g, k) := ResolveLods(floorTotal, ws, budget);
    if Effective(floorTotal, ws, g) > budget {
      forall b: seq<nat> | Legal(b, |ws|) && Steps(b, |ws|) < MAX_RESOLVE_PASSES + 1
        ensures Effective(floorTotal, ws, b) > budget
      {
        if Heaviest(ws, g, |ws|) < 0 {
          FloorTotals(ws, g, |ws|);
          FloorTotals(ws, b, |ws|);
        } else {
          BalancedIsOptimal(ws, g, b);
        }
      }
    }
  }

  /**
   With at most 85 shed-able layers the pass cap is out of reach, so over budget means that
   the geometry would not fit even with every layer at its 1/8 floor.
   */
  lemma OverBudgetAtFloor(floorTotal: real, ws: seq<real>, budget: real)
    requires NonNegative(ws) && |ws| <= 85
    ensures var (g, k) := ResolveLods(floorTotal, ws, budget);
      |g| == |ws| &&
      (Effective(floorTotal, ws, g) > budget <==> floorTotal + SumUpTo(ws, |ws|) / 8.0 > budget)
  {
    StartInv(floorTotal, ws, budget);
    LoopEnds(floorTotal, ws, budget, Zeros(|ws|), 0);
    var (g, k) := ResolveLods(floorTotal, ws, budget);
    FloorTotals(ws, g, |ws|);
  }

  /**
   When over budget means exhausted. A run that ends over budget has every layer at its floor if and
   only if there are at most 85 of them; with more, it has run into the pass cap.
   */
  lemma ExhaustedExactly(floorTotal: real, ws: seq<real>, budget: real)
    requires NonNegative(ws)
    ensures var (g, k) := ResolveLods(floorTotal, ws, budget);
      && |g| == |ws|
      && (Effective(floorTotal, ws, g) > budget ==>
          && ((forall i :: 0 <= i < |ws| ==> g[i] == MAX_LOD) <==> |ws| <= 85)
          && (|ws| > 85 <==> k == MAX_RESOLVE_PASSES))
  {
    StartInv(floorTotal, ws, budget);
    LoopEnds(floorTotal, ws, budget, Zeros(|ws|), 0);
    var (g, k) := ResolveLods(floorTotal, ws, budget);
    FloorTotals(ws, g, |ws|);
  }

  // ---- The 85-layer bound is sharp -----------------------------------------

  lemma {:induction false} EqualLayers(b: seq<nat>, n: nat)
    requires Legal(b, 86) && n <= 86
    ensures Total(seq(86, _ => 8.0), b, n) >= 4.0 * n as real - Steps(b, n) as real
    ensures SumUpTo(seq(86, _ => 8.0), n) == 8.0 * n as real
  {
    if n != 0 {
      EqualLayers(b, n - 1);
      ContributionTable(8.0);
    }
  }

  /**
   With 86 equal layers the cap trips: 256 passes are used up, some layer is still above its floor,
   and a world that fits with every layer at its floor is reported over budget.
   */
  lemma PassCapTooSmall()
    ensures var ws := seq(86, _ => 8.0);
      var (g, k) := ResolveLods(0.0, ws, 87.0);
      && |g| == |ws| && k == MAX_RESOLVE_PASSES && (exists i :: 0 <= i < |ws| && g[i] < MAX_LOD)
      && Effective(0.0, ws, g) > 87.0 >= Effective(0.0, ws, seq(86, _ => MAX_LOD))
  {
    hide ResolveLods, Effective;
    var ws := seq(86, _ => 8.0);
    EqualVerdict();
    ExhaustedExactly(0.0, ws, 87.0);
    var (g, k) := ResolveLods(0.0, ws, 87.0);
    ResolveOptimal(0.0, ws, 87.0, Zeros(86));
  }

  lemma EqualVerdict()
    ensures var ws := seq(86, _ => 8.0);
      var g := ResolveLods(0.0, ws, 87.0).0;
      && |g| == |ws| && Effective(0.0, ws, g) > 87.0 >= Effective(0.0, ws, seq(86, _ => MAX_LOD))
  {
    hide ResolveLods;
    var ws := seq(86, _ => 8.0);
    OverBudgetExactly(0.0, ws, 87.0);
    forall b: seq<nat> | Legal(b, |ws|) && Steps(b, |ws|) < MAX_RESOLVE_PASSES + 1
      ensures Effective(0.0, ws, b) > 87.0
    {
      EqualLayers(b, 86);
    }
    var deepest: seq<nat> := seq(86, _ => MAX_LOD);
    EqualLayers(deepest, 86);
    FloorTotals(ws, deepest, 86);
  }
}
