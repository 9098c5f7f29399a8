/**
 The validator's re-derivation of the budget verdict from the optimizer's emitted body. It
 starts from parsed fields: `None` is a field that is absent or of the wrong type.
 */
module BudgetGate {
  import opened Common
  import opened LodResolve
  import opened LodOutcome

  datatype DirectiveText = DirectiveText(
    level: Option<real>, scale: Option<real>, authored: Option<real>, effective: Option<real>,
    specialist: Option<string>)

  datatype Body = Body(
    budget: Option<real>, authored: Option<real>, observed: Option<real>, over: Option<bool>,
    directives: seq<DirectiveText>)

  datatype Reason =
    | Unparsed | LevelOutOfRange | ScaleMismatch | EffectiveMismatch
    | FloorShed | PhantomShed | AuthoredMismatch | DoubleShed

  datatype Issue =
    | MalformedBody | MetricDisagrees | FlagDisagrees | PhantomFigure | StaleGeometry
    | IllegalDirective(index: nat, reason: Reason)

  const OPTIMIZATION := "optimization"

  // ---- The prior geometry --------------------------------------------------

  predicate IsGeometry(l: Layer) { l.specialist != OPTIMIZATION }

  function Geometry(layers: seq<Layer>): seq<Layer> { Filter(IsGeometry, layers) }

  /** `_prior_triangles_by_specialist`: the last layer of a specialist wins. */
  function BySpecialist(layers: seq<Layer>): map<string, real> {
    if layers == [] then map[] else
      var l := layers[|layers| - 1];
      BySpecialist(layers[..|layers| - 1])[l.specialist := l.triangles]
  }

  method SummedPriorTriangles(layers: seq<Layer>) returns (total: real)
    ensures total == TrianglesOf(Geometry(layers))
  {
    total := 0.0;
    for i := 0 to |layers|
      invariant total == TrianglesOf(Geometry(layers[..i]))
    {
      assert layers[..i + 1][..i] == layers[..i];
      if layers[i].specialist != OPTIMIZATION {
        TrianglesSnoc(Geometry(layers[..i]), layers[i]);
        total := total + layers[i].triangles;
      }
    }
    assert layers[..|layers|] == layers;
  }

  lemma BySpecialistSnoc(g: seq<Layer>, l: Layer)
    ensures BySpecialist(g + [l]) == BySpecialist(g)[l.specialist := l.triangles]
  {
    assert (g + [l])[..|g|] == g;
  }

  method PriorTrianglesBySpecialist(layers: seq<Layer>) returns (out: map<string, real>)
    ensures out == BySpecialist(Geometry(layers))
  {
    out := map[];
    for i := 0 to |layers|
      invariant out == BySpecialist(Geometry(layers[..i]))
    {
      assert layers[..i + 1][..i] == layers[..i];
      if layers[i].specialist != OPTIMIZATION {
        BySpecialistSnoc(Geometry(layers[..i]), layers[i]);
        out := out[layers[i].specialist := layers[i].triangles];
      }
    }
    assert layers[..|layers|] == layers;
  }

  // ---- Re-deriving the directives ------------------------------------------

  predicate Parsed(d: DirectiveText) { d.level.Some? && d.scale.Some? && d.authored.Some? && d.effective.Some? }

  /** Sum of authored minus effective, or `None` when some directive lacks either figure. */
  function Reductions(ds: seq<DirectiveText>): Option<real> {
    if ds == [] then Some(0.0) else
      var d := ds[|ds| - 1];
      match Reductions(ds[..|ds| - 1])
      case None => None
      case Some(total) =>
        if d.authored.None? || d.effective.None? then None
        else Some(total + (d.authored.value - d.effective.value))
  }

  method OptReductions(ds: seq<DirectiveText>) returns (r: Option<real>)
    ensures r == Reductions(ds)
  {
    var total := 0.0;
    for i := 0 to |ds|
      invariant Reductions(ds[..i]) == Some(total)
    {
      assert ds[..i + 1][..i] == ds[..i];
      if ds[i].authored.None? || ds[i].effective.None? {
        ReductionsStick(ds, i + 1);
        return None;
      }
      total := total + (ds[i].authored.value - ds[i].effective.value);
    }
    assert ds[..|ds|] == ds;
    return Some(total);
  }

  lemma {:induction false} ReductionsStick(ds: seq<DirectiveText>, i: nat)
    requires i <= |ds| && Reductions(ds[..i]) == None
    ensures Reductions(ds) == None
    decreases |ds| - i
  {
    if i < |ds| {
      assert ds[..i + 1][..i] == ds[..i];
      ReductionsStick(ds, i + 1);
    } else {
      assert ds[..i] == ds;
    }
  }

  /** Why one directive is not a shed the optimizer could have made, or `None`. */
  function Classify(d: DirectiveText, floor: set<string>, prior: map<string, real>, seen: set<string>): Option<Reason> {
    if !Parsed(d) then Some(Unparsed)
    else if d.level.value.Floor as real != d.level.value || !(1.0 <= d.level.value <= MAX_LOD as real)
    then Some(LevelOutOfRange)
    else
      var legal := LodScale(d.level.value.Floor);
      if d.scale.value != legal then Some(ScaleMismatch)
      else if d.effective.value != d.authored.value * legal then Some(EffectiveMismatch)
      else if d.specialist.Some? && d.specialist.value in floor then Some(FloorShed)
      else if d.specialist.None? || d.specialist.value !in prior then Some(PhantomShed)
      else if d.authored.value != prior[d.specialist.value] then Some(AuthoredMismatch)
      else if d.specialist.value in seen then Some(DoubleShed)
      else None
  }

  /** The issues of a directive list, with the specialists legally shed so far. */
  function Audit(ds: seq<DirectiveText>, floor: set<string>, prior: map<string, real>): (seq<Issue>, set<string>) {
    if ds == [] then ([], {}) else
      var n := |ds| - 1;
      var (issues, seen) := Audit(ds[..n], floor, prior);
      match Classify(ds[n], floor, prior, seen)
      case None => (issues, seen + (if ds[n].specialist.Some? then {ds[n].specialist.value} else {}))
      case Some(reason) => (issues + [IllegalDirective(n, reason)], seen)
  }

  /** `_lod_directive_legality` with the per-specialist map supplied. */
  method LodDirectiveLegality(ds: seq<DirectiveText>, floor: set<string>, prior: map<string, real>)
    returns (out: seq<Issue>)
    ensures out == Audit(ds, floor, prior).0
  {
    out := [];
    var seen: set<string> := {};
    for i := 0 to |ds|
      invariant (out, seen) == Audit(ds[..i], floor, prior)
    {
      assert ds[..i + 1][..i] == ds[..i];
      var d := ds[i];
      if d.level.None? || d.scale.None? || d.authored.None? || d.effective.None? {
        out := out + [IllegalDirective(i, Unparsed)];
        continue;
      }
      var level := d.level.value;
      if level.Floor as real != level || !(1.0 <= level <= MAX_LOD as real) {
        out := out + [IllegalDirective(i, LevelOutOfRange)];
        continue;
      }
      var legal := LodScale(level.Floor);
      if d.scale.value != legal {
        out := out + [IllegalDirective(i, ScaleMismatch)];
        continue;
      }
      if d.effective.value != d.authored.value * legal {
        out := out + [IllegalDirective(i, EffectiveMismatch)];
        continue;
      }
      if d.specialist.Some? && d.specialist.value in floor {
        out := out + [IllegalDirective(i, FloorShed)];
      } else if d.specialist.None? || d.specialist.value !in prior {
        out := out + [IllegalDirective(i, PhantomShed)];
      } else if d.authored.value != prior[d.specialist.value] {
        out := out + [IllegalDirective(i, AuthoredMismatch)];
      } else if d.specialist.value in seen {
        out := out + [IllegalDirective(i, DoubleShed)];
      } else {
        seen := seen + {d.specialist.value};
      }
    }
    assert ds[..|ds|] == ds;
  }

  // ---- The gate ------------------------------------------------------------

  function When(condition: bool, issue: Issue): seq<Issue> { if condition then [issue] else [] }

  function GateIssues(body: Body, metricOver: bool, layers: seq<Layer>, floor: set<string>): seq<Issue> {
    var reductions := Reductions(body.directives);
    if body.budget.None? || body.authored.None? || body.observed.None? || body.over.None? || reductions.None?
    then [MalformedBody]
    else
      var rederived := body.observed.value > body.budget.value;
      When(metricOver != rederived, MetricDisagrees)
      + When(body.over.value != rederived, FlagDisagrees)
      + When(body.observed.value != body.authored.value - reductions.value, PhantomFigure)
      + When(body.authored.value != TrianglesOf(Geometry(layers)), StaleGeometry)
      + Audit(body.directives, floor, BySpecialist(Geometry(layers))).0
  }

  /** `_budget_self_consistency` on the current layers. */
  method BudgetSelfConsistency(body: Body, metricOver: bool, layers: seq<Layer>, floor: set<string>)
    returns (out: seq<Issue>)
    ensures out == GateIssues(body, metricOver, layers, floor)
  {
    hide Audit, Reductions, BySpecialist, TrianglesOf, Geometry;
    var priorTriangles := SummedPriorTriangles(layers);
    var bySpecialist := PriorTrianglesBySpecialist(layers);
    var reductions := OptReductions(body.directives);
    if body.budget.None? || body.authored.None? || body.observed.None? || body.over.None? || reductions.None? {
      return [MalformedBody];
    }
    var rederived := body.observed.value > body.budget.value;
    out := [];
    if metricOver != rederived { out := out + [MetricDisagrees]; }
    if body.over.value != rederived { out := out + [FlagDisagrees]; }
    assert out == When(metricOver != rederived, MetricDisagrees) + When(body.over.value != rederived, FlagDisagrees);
    ghost var flags := out;
    if body.observed.value != body.authored.value - reductions.value { out := out + [PhantomFigure]; }
    assert out == flags + When(body.observed.value != body.authored.value - reductions.value, PhantomFigure);
    if body.authored.value != priorTriangles { out := out + [StaleGeometry]; }
    var illegal := LodDirectiveLegality(body.directives, floor, bySpecialist);
    out := out + illegal;
  }

  // ---- What is reported, and when ------------------------------------------

  /** The map holds exactly the specialists that have a layer, each with its last one's triangles. */
  lemma {:induction false} BySpecialistLast(g: seq<Layer>, i: nat)
    requires i < |g| && forall j :: i < j < |g| ==> g[j].specialist != g[i].specialist
    ensures g[i].specialist in BySpecialist(g) && BySpecialist(g)[g[i].specialist] == g[i].triangles
    ensures forall name :: name in BySpecialist(g) ==> exists j :: 0 <= j < |g| && g[j].specialist == name
  {
    var n := |g| - 1;
    forall name | name in BySpecialist(g) ensures exists j :: 0 <= j < |g| && g[j].specialist == name {
      var j := BySpecialistSource(g, name);
    }
    if i < n {
      assert forall j :: 0 <= j < n ==> g[..n][j] == g[j];
      BySpecialistLast(g[..n], i);
    }
  }

  /** There is a sum of reductions exactly when every directive has both figures. */
  lemma {:induction false} ReductionsExactly(ds: seq<DirectiveText>)
    ensures Reductions(ds).Some? <==> forall i :: 0 <= i < |ds| ==> ds[i].authored.Some? && ds[i].effective.Some?
  {
    if ds != [] {
      var n := |ds| - 1;
      ReductionsExactly(ds[..n]);
      assert forall i :: 0 <= i < n ==> ds[..n][i] == ds[i];
    }
  }

  /** The scale a level stands for. */
  function ScaleOf(level: real): real {
    if level == 1.0 then 0.5 else if level == 2.0 then 0.25 else 0.125
  }

  predicate LevelOk(d: DirectiveText) {
    Parsed(d) && (d.level.value == 1.0 || d.level.value == 2.0 || d.level.value == 3.0)
  }

  predicate ScaleOk(d: DirectiveText) { LevelOk(d) && d.scale.value == ScaleOf(d.level.value) }

  /** The figures of a directive agree with one another. */
  predicate FiguresOk(d: DirectiveText) {
    ScaleOk(d) && d.effective.value == d.authored.value * ScaleOf(d.level.value)
  }

  lemma LevelScale(level: real)
    ensures level.Floor as real == level && 1.0 <= level <= MAX_LOD as real
      <==> level == 1.0 || level == 2.0 || level == 3.0
    ensures level == 1.0 || level == 2.0 || level == 3.0 ==> level.Floor >= 0 && LodScale(level.Floor) == ScaleOf(level)
  {
    assert LodScale(1) == 0.5 && LodScale(2) == 0.25 && LodScale(3) == 0.125;
  }

  /** Why a directive is refused: figures first, each with its own reason, then whose layer it sheds. */
  lemma ReasonExactly(d: DirectiveText, floor: set<string>, prior: map<string, real>, seen: set<string>)
    ensures var c := Classify(d, floor, prior, seen);
      && (c == Some(Unparsed) <==> !Parsed(d))
      && (c == Some(LevelOutOfRange) <==> Parsed(d) && !LevelOk(d))
      && (c == Some(ScaleMismatch) <==> LevelOk(d) && !ScaleOk(d))
      && (c == Some(EffectiveMismatch) <==> ScaleOk(d) && !FiguresOk(d))
    ensures FiguresOk(d) ==>
      var c, named := Classify(d, floor, prior, seen), d.specialist.Some?;
      && (c == Some(FloorShed) <==> named && d.specialist.value in floor)
      && (c == Some(PhantomShed) <==> !named || (d.specialist.value !in floor && d.specialist.value !in prior))
      && (named && d.specialist.value !in floor && d.specialist.value in prior ==>
          && (c == Some(AuthoredMismatch) <==> d.authored.value != prior[d.specialist.value])
          && (c == Some(DoubleShed) <==> d.authored.value == prior[d.specialist.value] && d.specialist.value in seen)
          && (c == None <==> d.authored.value == prior[d.specialist.value] && d.specialist.value !in seen))
  {
    if Parsed(d) { LevelScale(d.level.value); }
    hide LodScale, ScaleOf;
  }

  /** The specialists legally shed by the first i directives. */
  function SeenBefore(ds: seq<DirectiveText>, floor: set<string>, prior: map<string, real>, i: nat): set<string>
    requires i <= |ds|
  {
    Audit(ds[..i], floor, prior).1
  }

  /** Each directive is reported exactly when it is refused, with its reason and its place. */
  lemma {:induction false} AuditReports(ds: seq<DirectiveText>, floor: set<string>, prior: map<string, real>, i: nat,
      reason: Reason)
    ensures IllegalDirective(i, reason) in Audit(ds, floor, prior).0
      <==> i < |ds| && Classify(ds[i], floor, prior, SeenBefore(ds, floor, prior, i)) == Some(reason)
  {
    hide Classify;
    if ds != [] {
      var n := |ds| - 1;
      AuditReports(ds[..n], floor, prior, i, reason);
      assert i <= n ==> ds[..n][..i] == ds[..i];
    }
  }

  /** A specialist counts as shed exactly when a directive of its was accepted. */
  lemma {:induction false} SeenExactly(ds: seq<DirectiveText>, floor: set<string>, prior: map<string, real>,
      name: string)
    ensures name in Audit(ds, floor, prior).1
      <==> exists i :: 0 <= i < |ds| && Accepted(ds, floor, prior, i, name)
  {
    if ds != [] {
      var n := |ds| - 1;
      SeenExactly(ds[..n], floor, prior, name);
      forall i | 0 <= i < n ensures Accepted(ds[..n], floor, prior, i, name) <==> Accepted(ds, floor, prior, i, name) {
        assert ds[..n][..i] == ds[..i];
      }
      assert Accepted(ds, floor, prior, n, name)
        <==> Classify(ds[n], floor, prior, Audit(ds[..n], floor, prior).1) == None && ds[n].specialist == Some(name);
      hide Classify, Accepted;
    }
  }

  ghost predicate Accepted(ds: seq<DirectiveText>, floor: set<string>, prior: map<string, real>, i: nat, name: string)
    requires i < |ds|
  {
    Classify(ds[i], floor, prior, SeenBefore(ds, floor, prior, i)) == None && ds[i].specialist == Some(name)
  }

  /** A body with every field of the right type. */
  predicate WellFormed(body: Body) {
    && body.budget.Some? && body.authored.Some? && body.observed.Some? && body.over.Some?
    && forall i :: 0 <= i < |body.directives| ==>
         body.directives[i].authored.Some? && body.directives[i].effective.Some?
  }

  /**
   What the gate reports: a malformed body alone when some field is missing; otherwise each
   disagreement exactly when it is there, and every refused directive.
   */
  lemma GateReports(body: Body, metricOver: bool, layers: seq<Layer>, floor: set<string>, i: nat, reason: Reason)
    ensures !WellFormed(body) ==> GateIssues(body, metricOver, layers, floor) == [MalformedBody]
    ensures WellFormed(body) ==>
      var issues := GateIssues(body, metricOver, layers, floor);
      var over := body.observed.value > body.budget.value;
      && Reductions(body.directives).Some? && MalformedBody !in issues
      && (MetricDisagrees in issues <==> metricOver != over)
      && (FlagDisagrees in issues <==> body.over.value != over)
      && (PhantomFigure in issues
          <==> body.observed.value != body.authored.value - Reductions(body.directives).value)
      && (StaleGeometry in issues <==> body.authored.value != TrianglesOf(Geometry(layers)))
      && (IllegalDirective(i, reason) in issues
          <==> IllegalDirective(i, reason) in Audit(body.directives, floor, BySpecialist(Geometry(layers))).0)
  {
    ReductionsExactly(body.directives);
    var prior := BySpecialist(Geometry(layers));
    OnlyIllegal(body.directives, floor, prior);
    hide Audit, Reductions, BySpecialist, TrianglesOf, Geometry;
  }

  lemma {:induction false} OnlyIllegal(ds: seq<DirectiveText>, floor: set<string>, prior: map<string, real>)
    ensures forall x :: x in Audit(ds, floor, prior).0 ==> x.IllegalDirective?
  {
    hide Classify;
    if ds != [] { OnlyIllegal(ds[..|ds| - 1], floor, prior); }
  }

  // ---- Soundness -----------------------------------------------------------

  lemma {:induction false} BySpecialistSource(g: seq<Layer>, name: string) returns (i: nat)
    requires name in BySpecialist(g)
    ensures i < |g| && g[i].specialist == name && g[i].triangles == BySpecialist(g)[name]
  {
    var n := |g| - 1;
    if g[n].specialist == name {
      i := n;
    } else {
      i := BySpecialistSource(g[..n], name);
    }
  }

  lemma {:induction false} AllAuthored(ws: seq<real>, n: nat)
    requires n <= |ws|
    ensures Total(ws, Zeros(|ws|), n) == SumUpTo(ws, n)
  {
    if n != 0 {
      AllAuthored(ws, n - 1);
      ContributionTable(ws[n - 1]);
    }
  }

  /** Levels for the geometry that explain an audited directive list. */
  ghost predicate Explains(b: seq<nat>, g: seq<Layer>, floor: set<string>, seen: set<string>) {
    && Legal(b, |g|)
    && (forall i :: 0 <= i < |g| && b[i] > 0 ==> g[i].specialist in seen && g[i].specialist !in floor)
  }

  /** A list with no issue is an accepted directive after a list with no issue. */
  lemma AuditLast(ds: seq<DirectiveText>, floor: set<string>, prior: map<string, real>)
    requires ds != [] && Audit(ds, floor, prior).0 == []
    ensures var n := |ds| - 1;
      var (issues, seen) := Audit(ds[..n], floor, prior);
      && issues == [] && Classify(ds[n], floor, prior, seen) == None && ds[n].specialist.Some?
      && Audit(ds, floor, prior).1 == seen + {ds[n].specialist.value}
  {
    hide LodScale;
  }

  /** What an accepted directive says. */
  lemma AcceptedFacts(d: DirectiveText, floor: set<string>, prior: map<string, real>, seen: set<string>)
    requires Classify(d, floor, prior, seen) == None
    ensures Parsed(d) && d.specialist.Some? && d.specialist.value in prior
    ensures 1 <= d.level.value.Floor <= MAX_LOD && d.specialist.value !in floor && d.specialist.value !in seen
    ensures d.authored.value == prior[d.specialist.value]
    ensures d.effective.value == Contribution(d.authored.value, d.level.value.Floor)
  {
    hide LodScale;
  }

  /** A directive list with no issue is the reduction of some legal assignment. */
  lemma {:induction false} AuditExplained(ds: seq<DirectiveText>, floor: set<string>, g: seq<Layer>)
    returns (b: seq<nat>)
    requires Audit(ds, floor, BySpecialist(g)).0 == []
    ensures Explains(b, g, floor, Audit(ds, floor, BySpecialist(g)).1)
    ensures Reductions(ds) == Some(TrianglesOf(g) - Total(Weights(g), b, |g|))
  {
    var prior, ws := BySpecialist(g), Weights(g);
    if ds == [] {
      b := Zeros(|g|);
      AllAuthored(ws, |g|);
    } else {
      var n := |ds| - 1;
      var d := ds[n];
      AuditLast(ds, floor, prior);
      AcceptedFacts(d, floor, prior, Audit(ds[..n], floor, prior).1);
      var c := AuditExplained(ds[..n], floor, g);
      var i := BySpecialistSource(g, d.specialist.value);
      var level := d.level.value.Floor;
      b := c[i := level];
      assert c[i] == 0;
      BumpEffect(ws, c, i, level, |g|);
      ContributionTable(ws[i]);
      hide Audit, Classify, Total, BySpecialist, Contribution;
    }
  }

  /**
   Gate soundness, for every body and every list of layers. When no issue is reported, the
   observed total is the current geometry scaled by some assignment with levels 0..3 and 0
   on floor layers, and both over-budget flags say whether that total exceeds the budget.
   */
  lemma GateSound(body: Body, metricOver: bool, layers: seq<Layer>, floor: set<string>) returns (b: seq<nat>)
    requires GateIssues(body, metricOver, layers, floor) == []
    ensures var g := Geometry(layers);
      && Legal(b, |g|) && (forall i :: 0 <= i < |g| && g[i].specialist in floor ==> b[i] == 0)
      && body.observed == Some(Total(Weights(g), b, |g|)) && body.budget.Some?
      && body.over == Some(body.observed.value > body.budget.value)
      && metricOver == (body.observed.value > body.budget.value)
  {
    b := AuditExplained(body.directives, floor, Geometry(layers));
  }

  // ---- Completeness --------------------------------------------------------

  /** The body `run` writes for an outcome of the resolver. */
  function EmitDirective(d: Directive): DirectiveText {
    DirectiveText(Some(d.level as real), Some(LodScale(d.level)), Some(d.authored),
      Some(d.authored * LodScale(d.level)), Some(d.specialist))
  }

  function EmitDirectives(ds: seq<Directive>): seq<DirectiveText> {
    if ds == [] then [] else EmitDirectives(ds[..|ds| - 1]) + [EmitDirective(ds[|ds| - 1])]
  }

  function EmitBody(r: Outcome, budget: real): Body {
    Body(Some(budget), Some(r.authored), Some(r.effective), Some(r.effective > budget), EmitDirectives(r.directives))
  }

  lemma EmitSnoc(ds: seq<Directive>, d: Directive)
    ensures EmitDirectives(ds + [d]) == EmitDirectives(ds) + [EmitDirective(d)]
  {
    assert (ds + [d])[..|ds|] == ds;
  }

  /** One layer per specialist. */
  ghost predicate OnePerSpecialist(xs: multiset<Layer>) {
    forall a, b :: a in xs && b in xs && a.specialist == b.specialist ==> a == b && xs[a] == 1
  }

  lemma SpecialistsDiffer(xs: seq<Layer>, i: nat, j: nat)
    requires OnePerSpecialist(multiset(xs)) && i < j < |xs|
    ensures xs[i].specialist != xs[j].specialist
  {
    WithoutMultiset(xs, i);
    assert Without(xs, i)[j - 1] == xs[j];
    assert xs[j] in multiset(Without(xs, i));
    assert xs[i] in multiset(xs) && xs[j] in multiset(xs);
  }

  lemma {:induction false} BySpecialistHas(g: seq<Layer>, l: Layer)
    requires l in g && OnePerSpecialist(multiset(g))
    ensures l.specialist in BySpecialist(g) && BySpecialist(g)[l.specialist] == l.triangles
  {
    var n := |g| - 1;
    assert g == g[..n] + [g[n]];
    if g[n] != l {
      assert l in g[..n];
      assert forall x :: x in multiset(g[..n]) ==> x in multiset(g) && multiset(g[..n])[x] <= multiset(g)[x];
      BySpecialistHas(g[..n], l);
      assert g[n] in multiset(g) && l in multiset(g);
    }
  }

  /** The shed-able layers, as the audit needs them. */
  ghost predicate HonestShed(shed: seq<Layer>, g: seq<Layer>, floor: set<string>) {
    && OnePerSpecialist(multiset(shed)) && OnePerSpecialist(multiset(g))
    && forall l :: l in shed ==> l in g && l.specialist !in floor
  }

  ghost function NamesShed(shed: seq<Layer>, lods: seq<nat>, n: nat): set<string>
    requires |lods| == |shed| && n <= |shed|
  {
    set i | 0 <= i < n && lods[i] > 0 :: shed[i].specialist
  }

  /** One emitted directive is accepted exactly when it names a current layer not shed before. */
  lemma ClassifyEmitted(l: Layer, level: nat, floor: set<string>, prior: map<string, real>, seen: set<string>)
    requires 1 <= level <= MAX_LOD && l.specialist !in floor
    ensures Classify(EmittedAt(l, level), floor, prior, seen) == None
      <==> l.specialist in prior && prior[l.specialist] == l.triangles && l.specialist !in seen
  {
    hide LodScale;
    assert (level as real).Floor == level;
  }

  /** Auditing one more emitted directive. */
  lemma AuditSnoc(ds: seq<DirectiveText>, d: DirectiveText, floor: set<string>, prior: map<string, real>)
    ensures var (issues, seen) := Audit(ds, floor, prior);
      && (d.specialist.Some? && Classify(d, floor, prior, seen) == None ==>
          Audit(ds + [d], floor, prior) == (issues, seen + {d.specialist.value}))
      && (Classify(d, floor, prior, seen) != None || issues != [] ==> Audit(ds + [d], floor, prior).0 != [])
    ensures Reductions(ds).Some? && d.authored.Some? && d.effective.Some? ==>
      Reductions(ds + [d]) == Some(Reductions(ds).value + (d.authored.value - d.effective.value))
  {
    assert (ds + [d])[..|ds|] == ds;
  }

  function EmittedAt(l: Layer, level: nat): DirectiveText {
    EmitDirective(Directive(l.specialist, l.path, l.triangles, level))
  }

  /** The directives emitted for the first n shed-able layers. */
  function Emitted(shed: seq<Layer>, lods: seq<nat>, n: nat): seq<DirectiveText>
    requires |lods| == |shed| && n <= |shed|
  {
    if n == 0 then []
    else if lods[n - 1] > 0 then Emitted(shed, lods, n - 1) + [EmittedAt(shed[n - 1], lods[n - 1])]
    else Emitted(shed, lods, n - 1)
  }

  lemma {:induction false} EmittedIsEmit(shed: seq<Layer>, lods: seq<nat>, n: nat)
    requires |lods| == |shed| && n <= |shed|
    ensures EmitDirectives(DirectivesOf(shed, lods, n)) == Emitted(shed, lods, n)
  {
    hide EmitDirectives, EmitDirective;
    if n == 0 {
      NothingEmitted();
    } else {
      EmittedIsEmit(shed, lods, n - 1);
      var l, ds := shed[n - 1], DirectivesOf(shed, lods, n - 1);
      EmitSnoc(ds, Directive(l.specialist, l.path, l.triangles, lods[n - 1]));
      if lods[n - 1] > 0 {
        assert DirectivesOf(shed, lods, n) == ds + [Directive(l.specialist, l.path, l.triangles, lods[n - 1])];
      } else {
        assert DirectivesOf(shed, lods, n) == ds;
      }
    }
  }

  lemma NothingEmitted()
    ensures EmitDirectives([]) == []
  {}

  /** Every layer shed is the current one of its specialist, and no specialist is shed twice. */
  predicate CleanSheds(shed: seq<Layer>, lods: seq<nat>, prior: map<string, real>, n: nat)
    requires |lods| == |shed| && n <= |shed|
  {
    && (forall i :: 0 <= i < n && lods[i] > 0 ==>
        shed[i].specialist in prior && prior[shed[i].specialist] == shed[i].triangles)
    && (forall i, j :: 0 <= i < j < n && lods[i] > 0 && lods[j] > 0 ==> shed[i].specialist != shed[j].specialist)
  }

  lemma CleanGrows(shed: seq<Layer>, lods: seq<nat>, prior: map<string, real>, n: nat)
    requires |lods| == |shed| && n < |shed|
    ensures NamesShed(shed, lods, n + 1)
      == if lods[n] > 0 then NamesShed(shed, lods, n) + {shed[n].specialist} else NamesShed(shed, lods, n)
    ensures CleanSheds(shed, lods, prior, n + 1)
      <==> CleanSheds(shed, lods, prior, n) && (lods[n] > 0 ==>
        && shed[n].specialist in prior && prior[shed[n].specialist] == shed[n].triangles
        && shed[n].specialist !in NamesShed(shed, lods, n))
  {}

  ghost predicate NoneFloored(shed: seq<Layer>, floor: set<string>) {
    forall i :: 0 <= i < |shed| ==> shed[i].specialist !in floor
  }

  lemma NothingShed(shed: seq<Layer>, lods: seq<nat>, floor: set<string>, prior: map<string, real>)
    requires |lods| == |shed|
    ensures Audit([], floor, prior) == ([], {}) && NamesShed(shed, lods, 0) == {} && CleanSheds(shed, lods, prior, 0)
  {}

  lemma EmittedNames(l: Layer, level: nat)
    ensures EmittedAt(l, level).specialist == Some(l.specialist)
  {}

  /** The audit of emitted directives finds nothing if and only if the sheds are clean. */
  lemma {:induction false} AuditExact(shed: seq<Layer>, lods: seq<nat>, n: nat, prior: map<string, real>,
      floor: set<string>)
    requires NoneFloored(shed, floor) && Legal(lods, |shed|) && n <= |shed|
    ensures var (issues, seen) := Audit(Emitted(shed, lods, n), floor, prior);
      && (issues == [] <==> CleanSheds(shed, lods, prior, n))
      && (issues == [] ==> seen == NamesShed(shed, lods, n))
  {
    hide Audit, CleanSheds, NamesShed, Classify, EmittedAt;
    if n == 0 {
      NothingShed(shed, lods, floor, prior);
    } else {
      AuditExact(shed, lods, n - 1, prior, floor);
      var l, level, ds := shed[n - 1], lods[n - 1], Emitted(shed, lods, n - 1);
      CleanGrows(shed, lods, prior, n - 1);
      if level > 0 {
        ClassifyEmitted(l, level, floor, prior, Audit(ds, floor, prior).1);
        AuditSnoc(ds, EmittedAt(l, level), floor, prior);
        EmittedNames(l, level);
      }
    }
  }

  /** With one layer per specialist every assignment is clean. */
  lemma HonestIsClean(shed: seq<Layer>, lods: seq<nat>, g: seq<Layer>, floor: set<string>)
    requires HonestShed(shed, g, floor) && |lods| == |shed|
    ensures CleanSheds(shed, lods, BySpecialist(g), |shed|)
  {
    forall i | 0 <= i < |shed|
      ensures shed[i].specialist in BySpecialist(g) && BySpecialist(g)[shed[i].specialist] == shed[i].triangles
    {
      assert shed[i] in shed;
      BySpecialistHas(g, shed[i]);
    }
    forall i, j | 0 <= i < j < |shed| ensures shed[i].specialist != shed[j].specialist {
      SpecialistsDiffer(shed, i, j);
    }
  }

  lemma ReductionsStep(ds: seq<DirectiveText>, next: seq<DirectiveText>, l: Layer, level: nat)
    requires Reductions(ds).Some?
    requires next == if level > 0 then ds + [EmittedAt(l, level)] else ds
    ensures Reductions(next) == Some(Reductions(ds).value + (l.triangles - Contribution(l.triangles, level)))
  {
    if level > 0 {
      assert next[..|ds|] == ds;
      assert EmittedAt(l, level).effective.value == Contribution(l.triangles, level);
    } else {
      ContributionTable(l.triangles);
    }
  }

  lemma TotalStep(ws: seq<real>, lods: seq<nat>, n: nat)
    requires n < |ws| == |lods|
    ensures SumUpTo(ws, n + 1) - Total(ws, lods, n + 1)
      == SumUpTo(ws, n) - Total(ws, lods, n) + (ws[n] - Contribution(ws[n], lods[n]))
  {}

  lemma {:induction false} HonestReductions(shed: seq<Layer>, lods: seq<nat>, n: nat)
    requires |lods| == |shed| && n <= |shed|
    ensures Reductions(Emitted(shed, lods, n)) == Some(SumUpTo(Weights(shed), n) - Total(Weights(shed), lods, n))
  {
    if n != 0 {
      hide Reductions, Contribution, EmittedAt, Total, SumUpTo;
      HonestReductions(shed, lods, n - 1);
      ReductionsStep(Emitted(shed, lods, n - 1), Emitted(shed, lods, n), shed[n - 1], lods[n - 1]);
      TotalStep(Weights(shed), lods, n - 1);
    }
  }

  /** The geometry an honest run is about. */
  ghost predicate HonestPrior(prior: seq<Layer>, layers: seq<Layer>) {
    && Geometry(prior) == Geometry(layers) && OnePerSpecialist(multiset(Geometry(layers)))
    && (forall l :: l in prior ==> l.triangles >= 0.0 && (IsGeometry(l) || l.triangles == 0.0))
  }

  lemma HonestParts(prior: seq<Layer>, layers: seq<Layer>, floor: set<string>)
    requires HonestPrior(prior, layers)
    ensures HonestShed(ShedOrder(prior, floor), Geometry(layers), floor)
    ensures TrianglesOf(Geometry(layers)) == FloorTotal(prior, floor) + TrianglesOf(ShedOrder(prior, floor))
  {
    var shedIn, g := SheddableIn(floor), Geometry(layers);
    var kept, shed := Filter(shedIn, prior), ShedOrder(prior, floor);
    ShedOrderMembers(prior, floor);
    SortedIsSort(kept);
    forall x ensures multiset(shed)[x] <= multiset(g)[x] {
      FilterCounts(shedIn, prior, x);
      FilterCounts(IsGeometry, prior, x);
      if x in multiset(shed) { assert x in shed; }
    }
    forall x | x in shed ensures x in g && x.specialist !in floor {
      assert x in multiset(shed) && x in multiset(g);
    }
    TrianglesOfPermutation(shed, kept);
    TrianglesSplit(FlooredIn(floor), shedIn, prior);
    TrianglesSplit(IsGeometry, (x: Layer) => false, prior);
    NoneKept(prior);
  }

  lemma {:induction false} NoneKept(xs: seq<Layer>)
    ensures Filter((x: Layer) => false, xs) == []
  {
    if xs != [] { NoneKept(xs[..|xs| - 1]); }
  }

  /** The body that reports an assignment of levels to the shed-able layers. */
  function AssignmentBody(floorTotal: real, shed: seq<Layer>, lods: seq<nat>, budget: real): Body
    requires |lods| == |shed|
  {
    var observed := Effective(floorTotal, Weights(shed), lods);
    Body(Some(budget), Some(floorTotal + TrianglesOf(shed)), Some(observed), Some(observed > budget),
      Emitted(shed, lods, |shed|))
  }

  /** A body that agrees with itself and with its metric is judged by its geometry and its directives. */
  lemma GateVerdict(body: Body, metricOver: bool, layers: seq<Layer>, floor: set<string>)
    requires body.budget.Some? && body.authored.Some? && body.observed.Some?
    requires Reductions(body.directives) == Some(body.authored.value - body.observed.value)
    requires body.over == Some(metricOver) && metricOver == (body.observed.value > body.budget.value)
    ensures GateIssues(body, metricOver, layers, floor) == []
      <==> body.authored.value == TrianglesOf(Geometry(layers))
           && Audit(body.directives, floor, BySpecialist(Geometry(layers))).0 == []
  {
    hide Audit, TrianglesOf, BySpecialist, Reductions;
  }

  /** The gate's verdict on the body of any legal assignment, for any layers. */
  lemma AssignmentVerdict(floorTotal: real, shed: seq<Layer>, lods: seq<nat>, budget: real, layers: seq<Layer>,
      floor: set<string>)
    requires NoneFloored(shed, floor) && Legal(lods, |shed|)
    ensures var body := AssignmentBody(floorTotal, shed, lods, budget);
      && (GateIssues(body, body.over.value, layers, floor) == []
          <==> floorTotal + TrianglesOf(shed) == TrianglesOf(Geometry(layers))
               && CleanSheds(shed, lods, BySpecialist(Geometry(layers)), |shed|))
  {
    hide GateIssues, Geometry, BySpecialist, CleanSheds, Audit;
    AuditExact(shed, lods, |shed|, BySpecialist(Geometry(layers)), floor);
    HonestReductions(shed, lods, |shed|);
    var body := AssignmentBody(floorTotal, shed, lods, budget);
    GateVerdict(body, body.over.value, layers, floor);
  }

  /** With one layer per specialist, the gate accepts the body of every legal assignment, not only the greedy one. */
  lemma LegalAssignmentPasses(floorTotal: real, shed: seq<Layer>, lods: seq<nat>, budget: real, layers: seq<Layer>,
      floor: set<string>)
    requires HonestShed(shed, Geometry(layers), floor) && Legal(lods, |shed|)
    requires TrianglesOf(Geometry(layers)) == floorTotal + TrianglesOf(shed)
    ensures var body := AssignmentBody(floorTotal, shed, lods, budget);
      GateIssues(body, body.over.value, layers, floor) == []
  {
    hide GateIssues, Geometry, BySpecialist, CleanSheds;
    HonestIsClean(shed, lods, Geometry(layers), floor);
    forall i | 0 <= i < |shed| ensures shed[i].specialist !in floor { assert shed[i] in shed; }
    AssignmentVerdict(floorTotal, shed, lods, budget, layers, floor);
  }

  lemma ResolvedLegal(prior: seq<Layer>, budget: real, floor: set<string>)
    ensures var shed := ShedOrder(prior, floor);
      Legal(ResolveLods(FloorTotal(prior, floor), Weights(shed), budget).0, |shed|)
  {
    ShedOrderMembers(prior, floor);
    var ws := Weights(ShedOrder(prior, floor));
    StartInv(FloorTotal(prior, floor), ws, budget);
    LoopEnds(FloorTotal(prior, floor), ws, budget, Zeros(|ws|), 0);
  }

  /** The levels `_resolve` ends with. */
  function ResolvedLevels(prior: seq<Layer>, budget: real, floor: set<string>): seq<nat> {
    ResolveLods(FloorTotal(prior, floor), Weights(ShedOrder(prior, floor)), budget).0
  }

  lemma ResolvedBody(prior: seq<Layer>, budget: real, floor: set<string>)
    ensures var shed, lods := ShedOrder(prior, floor), ResolvedLevels(prior, budget, floor);
      && Legal(lods, |shed|) && NoneFloored(shed, floor)
      && EmitBody(Resolved(prior, budget, floor), budget)
           == AssignmentBody(FloorTotal(prior, floor), shed, lods, budget)
  {
    ResolvedLegal(prior, budget, floor);
    ShedOrderMembers(prior, floor);
    var shed, lods := ShedOrder(prior, floor), ResolvedLevels(prior, budget, floor);
    forall i | 0 <= i < |shed| ensures shed[i].specialist !in floor { assert shed[i] in shed; }
    EmittedIsEmit(shed, lods, |shed|);
  }

  /**
   The gate's verdict on every `_resolve` outcome, for any prior layers and any current ones: it passes
   if and only if the authored total is the current geometry's, every layer shed is the current
   one of its specialist, and no specialist is shed twice.
   */
  lemma ResolvedVerdict(prior: seq<Layer>, layers: seq<Layer>, budget: real, floor: set<string>)
    ensures var r := Resolved(prior, budget, floor);
      var shed, lods := ShedOrder(prior, floor), ResolvedLevels(prior, budget, floor);
      && |lods| == |shed|
      && (GateIssues(EmitBody(r, budget), r.effective > budget, layers, floor) == []
          <==> r.authored == TrianglesOf(Geometry(layers))
               && CleanSheds(shed, lods, BySpecialist(Geometry(layers)), |shed|))
  {
    hide GateIssues, Geometry, BySpecialist, CleanSheds, ShedOrder, FloorTotal;
    ResolvedBody(prior, budget, floor);
    AssignmentVerdict(FloorTotal(prior, floor), ShedOrder(prior, floor), ResolvedLevels(prior, budget, floor),
      budget, layers, floor);
  }

  /** Gate completeness: every honest `_resolve` outcome on the current geometry passes. */
  lemma GateComplete(prior: seq<Layer>, layers: seq<Layer>, budget: real, floor: set<string>)
    requires HonestPrior(prior, layers)
    ensures var r := Resolved(prior, budget, floor);
      GateIssues(EmitBody(r, budget), r.effective > budget, layers, floor) == []
  {
    hide GateIssues, Geometry, BySpecialist, CleanSheds, ShedOrder, FloorTotal;
    HonestParts(prior, layers, floor);
    ResolvedVerdict(prior, layers, budget, floor);
    HonestIsClean(ShedOrder(prior, floor), ResolvedLevels(prior, budget, floor), Geometry(layers), floor);
  }

  // ---- Two layers of one specialist ----------------------------------------

  /** One specialist's two layers, the heavier first. */
  function TwoProps(): seq<Layer> { [Layer("prop", "a", 8.0), Layer("prop", "b", 4.0)] }

  lemma FilterTwo(keep: Layer -> bool, a: Layer, b: Layer)
    ensures keep(a) && keep(b) ==> Filter(keep, [a, b]) == [a, b]
    ensures !keep(a) && !keep(b) ==> Filter(keep, [a, b]) == []
  {
    assert [a, b][..1] == [a] && [a][..0] == [];
    assert Filter(keep, [a]) == if keep(a) then [a] else [];
  }

  lemma TwoPropsParts()
    ensures ShedOrder(TwoProps(), {}) == TwoProps() && FloorTotal(TwoProps(), {}) == 0.0
    ensures Geometry(TwoProps()) == TwoProps() && BySpecialist(TwoProps()) == map["prop" := 4.0]
  {
    var a, b := Layer("prop", "a", 8.0), Layer("prop", "b", 4.0);
    assert |"prop"| != |OPTIMIZATION|;
    assert IsGeometry(a) && IsGeometry(b);
    FilterTwo(IsGeometry, a, b);
    FilterTwo(SheddableIn({}), a, b);
    FilterTwo(FlooredIn({}), a, b);
    hide Filter;
    assert TwoProps() == [a] + [b] && TwoProps()[1..] == [b] && [b][1..] == [];
    assert Sorted([b]) == [b];
    assert BySpecialist([] + [a]) == map["prop" := 8.0] by { BySpecialistSnoc([], a); }
    BySpecialistSnoc([a], b);
  }

  /** Completeness fails without one layer per specialist: an honest shed of the heavier layer is refused. */
  lemma TwoLayersRefused()
    ensures var r := Resolved(TwoProps(), 8.0, {});
      GateIssues(EmitBody(r, 8.0), r.effective > 8.0, TwoProps(), {}) != []
  {
    hide GateIssues, Resolved, ResolvedLevels, EmitBody, CleanSheds;
    hide ShedOrder, FloorTotal, Geometry, BySpecialist, Legal;
    TwoPropsParts();
    TwoPropsLevels();
    ResolvedVerdict(TwoProps(), TwoProps(), 8.0, {});
    HeavierNotClean(ResolvedLevels(TwoProps(), 8.0, {}));
  }

  lemma TwoPropsLevels()
    ensures |ResolvedLevels(TwoProps(), 8.0, {})| == 2 && ResolvedLevels(TwoProps(), 8.0, {})[0] > 0
  {
    hide ResolveLods, ShedOrder, FloorTotal;
    TwoPropsParts();
    ResolvedLegal(TwoProps(), 8.0, {});
    assert Weights(TwoProps()) == [8.0, 4.0];
    HeavierShed(ResolvedLevels(TwoProps(), 8.0, {}));
  }

  lemma HeavierNotClean(lods: seq<nat>)
    requires |lods| == 2 && lods[0] > 0
    ensures !CleanSheds(TwoProps(), lods, map["prop" := 4.0], 2)
  {
    assert TwoProps()[0].triangles == 8.0;
  }

  lemma HeavierShed(lods: seq<nat>)
    requires Legal(lods, 2) && lods == ResolveLods(0.0, [8.0, 4.0], 8.0).0
    ensures lods[0] > 0
  {
    hide ResolveLods;
    var ws := [8.0, 4.0];
    OverBudgetAtFloor(0.0, ws, 8.0);
    assert SumUpTo(ws, 1) == 8.0 && SumUpTo(ws, 2) == 12.0;
    HeavierMustGo(lods);
  }

  lemma HeavierMustGo(lods: seq<nat>)
    requires Legal(lods, 2) && Total([8.0, 4.0], lods, 2) <= 8.0
    ensures lods[0] > 0
  {
    var ws := [8.0, 4.0];
    ContributionTable(8.0);
    ContributionTable(4.0);
    hide Contribution;
    assert Total(ws, lods, 2) == Total(ws, lods, 1) + Contribution(4.0, lods[1]);
    assert Total(ws, lods, 1) == Contribution(8.0, lods[0]);
  }
}
