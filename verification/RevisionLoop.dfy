/**
 The supervisor's graph: seven specialists in a fixed chain, then the validator, which may
 route back to a specialist. What each node produces or decides is a parameter of its step.
 */
module RevisionLoop {
  import opened Common

  /** A produced layer; `version` stands for everything but its key. */
  datatype LayerSpec = LayerSpec(specialist: string, region: string, version: nat)

  // ---- merge_layers --------------------------------------------------------

  function Key(l: LayerSpec): (string, string) { (l.specialist, l.region) }

  function IndexOfKey(ls: seq<LayerSpec>, k: (string, string)): (i: nat)
    ensures i <= |ls| && (i < |ls| ==> Key(ls[i]) == k) && forall j :: 0 <= j < i ==> Key(ls[j]) != k
  {
    if ls == [] then 0 else if Key(ls[0]) == k then 0 else 1 + IndexOfKey(ls[1..], k)
  }

  /** Assigning to an insertion-ordered dictionary: a known key keeps its place. */
  function Upsert(ls: seq<LayerSpec>, l: LayerSpec): seq<LayerSpec> {
    var i := IndexOfKey(ls, Key(l));
    if i < |ls| then ls[i := l] else ls + [l]
  }

  function Merge(ls: seq<LayerSpec>): seq<LayerSpec> {
    if ls == [] then [] else Upsert(Merge(ls[..|ls| - 1]), ls[|ls| - 1])
  }

  ghost predicate OnePerKey(ls: seq<LayerSpec>) { forall i, j :: 0 <= i < j < |ls| ==> Key(ls[i]) != Key(ls[j]) }

  /** l is the last of its key in the history. */
  ghost predicate Latest(history: seq<LayerSpec>, l: LayerSpec) {
    exists i :: 0 <= i < |history| && history[i] == l && forall j :: i < j < |history| ==> Key(history[j]) != Key(l)
  }

  ghost predicate Current(ls: seq<LayerSpec>, history: seq<LayerSpec>) {
    && OnePerKey(ls)
    && (forall i :: 0 <= i < |ls| ==> Latest(history, ls[i]))
    && (forall l :: l in history ==> exists i :: 0 <= i < |ls| && Key(ls[i]) == Key(l))
  }

  lemma LatestStays(history: seq<LayerSpec>, x: LayerSpec, l: LayerSpec)
    requires Latest(history, x) && Key(x) != Key(l)
    ensures Latest(history + [l], x)
  {
    var k :| 0 <= k < |history| && history[k] == x && forall j :: k < j < |history| ==> Key(history[j]) != Key(x);
    assert (history + [l])[k] == x;
  }

  lemma LatestNew(history: seq<LayerSpec>, l: LayerSpec)
    ensures Latest(history + [l], l)
  {
    assert (history + [l])[|history|] == l;
  }

  lemma UpsertUnique(ls: seq<LayerSpec>, l: LayerSpec)
    requires OnePerKey(ls)
    ensures OnePerKey(Upsert(ls, l)) && IndexOfKey(ls, Key(l)) < |Upsert(ls, l)|
    ensures var at := IndexOfKey(ls, Key(l));
      forall i :: 0 <= i < |Upsert(ls, l)| ==>
        if i == at then Upsert(ls, l)[i] == l
        else i < |ls| && Upsert(ls, l)[i] == ls[i] && Key(ls[i]) != Key(l)
  {}

  lemma UpsertCurrent(ls: seq<LayerSpec>, history: seq<LayerSpec>, l: LayerSpec)
    requires Current(ls, history)
    ensures Current(Upsert(ls, l), history + [l])
  {
    hide Latest;
    var at := IndexOfKey(ls, Key(l));
    var next := Upsert(ls, l);
    UpsertUnique(ls, l);
    forall i | 0 <= i < |next| ensures Latest(history + [l], next[i]) {
      if i == at { LatestNew(history, l); } else { LatestStays(history, ls[i], l); }
    }
    forall m | m in history + [l] ensures exists i :: 0 <= i < |next| && Key(next[i]) == Key(m) {
      if Key(m) == Key(l) {
        assert Key(next[at]) == Key(m);
      } else {
        var i :| 0 <= i < |ls| && Key(ls[i]) == Key(m);
        assert Key(next[i]) == Key(m);
      }
    }
  }

  /** The reducer keeps one layer per (specialist, region): the most recently produced one. */
  lemma {:induction false} MergeCurrent(ls: seq<LayerSpec>)
    ensures Current(Merge(ls), ls)
  {
    hide Latest, Upsert;
    if ls != [] {
      var n := |ls| - 1;
      MergeCurrent(ls[..n]);
      UpsertCurrent(Merge(ls[..n]), ls[..n], ls[n]);
      assert ls == ls[..n] + [ls[n]];
    }
  }

  lemma MergeUnique(ls: seq<LayerSpec>)
    ensures OnePerKey(Merge(ls))
  {
    MergeCurrent(ls);
  }

  lemma {:induction false} MergeFixed(ls: seq<LayerSpec>)
    requires OnePerKey(ls)
    ensures Merge(ls) == ls
  {
    if ls != [] {
      var n := |ls| - 1;
      MergeFixed(ls[..n]);
      assert forall j :: 0 <= j < n ==> Key(ls[..n][j]) != Key(ls[n]);
      assert ls == ls[..n] + [ls[n]];
    }
  }

  lemma MergeSnoc(ls: seq<LayerSpec>, l: LayerSpec)
    ensures Merge(ls + [l]) == Upsert(Merge(ls), l)
  {
    assert (ls + [l])[..|ls|] == ls;
  }

  lemma FirstSeenSnoc(ls: seq<LayerSpec>, l: LayerSpec, k: (string, string))
    ensures IndexOfKey(ls + [l], k)
      == if IndexOfKey(ls, k) < |ls| then IndexOfKey(ls, k) else if Key(l) == k then |ls| else |ls| + 1
  {
    var i := IndexOfKey(ls + [l], k);
    assert forall j :: 0 <= j < |ls| ==> (ls + [l])[j] == ls[j];
    assert (ls + [l])[|ls|] == l;
  }

  /** Where in a history the key of each layer was first produced. */
  function FirstSeen(history: seq<LayerSpec>, merged: seq<LayerSpec>): (places: seq<nat>)
    ensures |places| == |merged|
  {
    seq(|merged|, i requires 0 <= i < |merged| => IndexOfKey(history, Key(merged[i])))
  }

  ghost predicate Rising(places: seq<nat>, bound: nat) {
    && (forall i :: 0 <= i < |places| ==> places[i] < bound)
    && forall i, j :: 0 <= i < j < |places| ==> places[i] < places[j]
  }

  /** Layers stand in the order in which their keys were first produced. */
  ghost predicate InOrderOf(history: seq<LayerSpec>, merged: seq<LayerSpec>) {
    Rising(FirstSeen(history, merged), |history|)
  }

  /** A layer list whose keys, one by one, are those of another. */
  ghost predicate SameKeysAs(xs: seq<LayerSpec>, ys: seq<LayerSpec>) {
    |xs| == |ys| && forall i :: 0 <= i < |xs| ==> Key(xs[i]) == Key(ys[i])
  }

  lemma SeenLonger(history: seq<LayerSpec>, merged: seq<LayerSpec>, next: seq<LayerSpec>, l: LayerSpec)
    requires InOrderOf(history, merged) && SameKeysAs(next, merged)
    ensures FirstSeen(history + [l], next) == FirstSeen(history, merged)
  {
    hide IndexOfKey;
    forall i | 0 <= i < |next| ensures FirstSeen(history + [l], next)[i] == FirstSeen(history, merged)[i] {
      FirstSeenSnoc(history, l, Key(merged[i]));
      assert FirstSeen(history, merged)[i] < |history|;
    }
  }

  lemma OrderNew(history: seq<LayerSpec>, merged: seq<LayerSpec>, l: LayerSpec)
    requires InOrderOf(history, merged) && IndexOfKey(history, Key(l)) == |history|
    ensures InOrderOf(history + [l], merged + [l])
  {
    hide IndexOfKey, FirstSeen, Rising;
    SeenLonger(history, merged, merged, l);
    FirstSeenSnoc(history, l, Key(l));
    SeenSnoc(history + [l], merged, l);
    RisingSnoc(FirstSeen(history, merged), |history|);
  }

  lemma SeenSnoc(history: seq<LayerSpec>, merged: seq<LayerSpec>, l: LayerSpec)
    ensures FirstSeen(history, merged + [l]) == FirstSeen(history, merged) + [IndexOfKey(history, Key(l))]
  {
    hide IndexOfKey;
  }

  lemma RisingSnoc(places: seq<nat>, bound: nat)
    requires Rising(places, bound)
    ensures Rising(places + [bound], bound + 1)
  {}

  lemma UpsertInOrder(history: seq<LayerSpec>, merged: seq<LayerSpec>, l: LayerSpec)
    requires InOrderOf(history, merged) && Current(merged, history)
    ensures InOrderOf(history + [l], Upsert(merged, l))
  {
    if IndexOfKey(merged, Key(l)) < |merged| {
      hide Current, Rising;
      SeenLonger(history, merged, Upsert(merged, l), l);
      RisingLonger(FirstSeen(history, merged), |history|);
    } else {
      NotInHistory(history, merged, l);
      hide InOrderOf, Current;
      OrderNew(history, merged, l);
    }
  }

  lemma NotInHistory(history: seq<LayerSpec>, merged: seq<LayerSpec>, l: LayerSpec)
    requires Current(merged, history) && IndexOfKey(merged, Key(l)) == |merged|
    ensures IndexOfKey(history, Key(l)) == |history|
  {
    forall m | m in history ensures Key(m) != Key(l) {
      var i :| 0 <= i < |merged| && Key(merged[i]) == Key(m);
    }
  }

  lemma RisingLonger(places: seq<nat>, bound: nat)
    requires Rising(places, bound)
    ensures Rising(places, bound + 1)
  {}

  /** A revised layer keeps the place of the first one with its key. */
  lemma {:induction false} MergeOrder(ls: seq<LayerSpec>)
    ensures InOrderOf(ls, Merge(ls))
  {
    hide Upsert, InOrderOf;
    if ls == [] {
      NothingInOrder();
    } else {
      var n := |ls| - 1;
      MergeOrder(ls[..n]);
      MergeCurrent(ls[..n]);
      UpsertInOrder(ls[..n], Merge(ls[..n]), ls[n]);
      assert ls == ls[..n] + [ls[n]];
    }
  }

  lemma NothingInOrder()
    ensures InOrderOf([], [])
  {}

  /** Merging as layers arrive is merging their whole history at once. */
  lemma {:induction false} MergeAbsorbs(a: seq<LayerSpec>, b: seq<LayerSpec>)
    ensures Merge(Merge(a) + b) == Merge(a + b)
    decreases |b|
  {
    if b == [] {
      MergeCurrent(a);
      MergeFixed(Merge(a));
      assert Merge(a) + b == Merge(a) && a + b == a;
    } else {
      var n := |b| - 1;
      MergeAbsorbs(a, b[..n]);
      assert Merge(a) + b == (Merge(a) + b[..n]) + [b[n]] && a + b == (a + b[..n]) + [b[n]];
      MergeSnoc(Merge(a) + b[..n], b[n]);
      MergeSnoc(a + b[..n], b[n]);
    }
  }

  /** `merge_layers`, filling a dictionary: its keys in insertion order and its values. */
  method MergeLayers(existing: seq<LayerSpec>, latest: seq<LayerSpec>) returns (merged: seq<LayerSpec>)
    ensures merged == Merge(existing + latest)
  {
    hide Upsert, OnePerKey;
    var all := existing + latest;
    var keys: seq<(string, string)> := [];
    var values: map<(string, string), LayerSpec> := map[];
    for n := 0 to |all|
      invariant DictHolds(keys, values, Merge(all[..n]))
    {
      var l := all[n];
      assert all[..n + 1] == all[..n] + [l];
      MergeSnoc(all[..n], l);
      MergeUnique(all[..n]);
      DictAssign(keys, values, Merge(all[..n]), l);
      if Key(l) !in values {
        keys := keys + [Key(l)];
      }
      values := values[Key(l) := l];
    }
    assert all[..|all|] == all;
    assert DictHolds(keys, values, Merge(all));
    merged := seq(|keys|, i requires 0 <= i < |keys| && keys[i] in values => values[keys[i]]);
  }

  /** A dictionary with these keys in order holds exactly these layers. */
  ghost predicate DictHolds(keys: seq<(string, string)>, values: map<(string, string), LayerSpec>, ls: seq<LayerSpec>) {
    && |keys| == |ls|
    && (forall i :: 0 <= i < |ls| ==> keys[i] in values && keys[i] == Key(ls[i]) && values[keys[i]] == ls[i])
    && (forall k :: k in values ==> k in keys)
  }

  lemma DictKeys(keys: seq<(string, string)>, values: map<(string, string), LayerSpec>, ls: seq<LayerSpec>,
      k: (string, string))
    requires DictHolds(keys, values, ls)
    ensures k in values <==> IndexOfKey(ls, k) < |ls|
  {
    if k in values {
      var i :| 0 <= i < |keys| && keys[i] == k;
    } else {
      forall i | 0 <= i < |ls| ensures Key(ls[i]) != k { assert keys[i] in values; }
    }
  }

  lemma DictAssign(keys: seq<(string, string)>, values: map<(string, string), LayerSpec>, ls: seq<LayerSpec>,
      l: LayerSpec)
    requires DictHolds(keys, values, ls) && OnePerKey(ls)
    ensures DictHolds(if Key(l) in values then keys else keys + [Key(l)], values[Key(l) := l], Upsert(ls, l))
  {
    DictKeys(keys, values, ls, Key(l));
    UpsertUnique(ls, l);
  }

  // ---- Routing -------------------------------------------------------------

  const PIPELINE_ORDER := ["director", "terrain", "biome", "prop", "lighting", "npc", "optimization"]
  const VALIDATOR: nat := 7
  const END: nat := 8
  const MAX_ROUNDS: nat := 3

  /** `named` are the specialists whose names occur in the issue texts. */
  datatype Verdict = Verdict(accepted: bool, failing: seq<string>, terminal: bool, named: set<string>)

  /** The first pipeline position at or after i whose name is wanted, or 7. */
  function EarliestFrom(wanted: set<string>, i: nat): (p: nat)
    requires i <= 7
    ensures i <= p <= 7 && (p < 7 ==> PIPELINE_ORDER[p] in wanted)
    ensures forall j :: i <= j < p ==> PIPELINE_ORDER[j] !in wanted
    decreases 7 - i
  {
    if i == 7 || PIPELINE_ORDER[i] in wanted then i else EarliestFrom(wanted, i + 1)
  }

  function Names(xs: seq<string>): set<string> { set i | 0 <= i < |xs| :: xs[i] }

  /** `_route_back_target`: the earliest fixable specialist, `None` when only a terminal fault is left. */
  function RouteBackTarget(v: Verdict): Option<nat> {
    if v.failing != [] then
      var p := EarliestFrom(Names(v.failing), 0);
      if p < 7 then Some(p) else if v.terminal then None else Some(0)
    else if v.terminal then None
    else
      var p := EarliestFrom(v.named, 0);
      if p < 7 then Some(p) else Some(0)
  }

  /** What the graph's shared state holds; `rounds` may be absent or damaged. */
  datatype State = State(layers: seq<LayerSpec>, verdict: Option<Verdict>, rounds: Option<int>, validatorErrored: bool)

  /** `_rounds`. */
  function Rounds(st: State): nat {
    if st.rounds.None? || st.rounds.value < 0 then 0 else st.rounds.value
  }

  /** `_after_validator`. */
  function AfterValidator(st: State): nat {
    if st.verdict.None? || st.validatorErrored || st.verdict.value.accepted || Rounds(st) >= MAX_ROUNDS then END
    else match RouteBackTarget(st.verdict.value) case None => END case Some(p) => p
  }

  /**
   A re-run goes to a pipeline specialist: on structured blame to the earliest one blamed, without
   it to the earliest one named in the issue texts, and to the director when neither points anywhere.
   */
  lemma RouteBackEarliest(v: Verdict)
    ensures PIPELINE_ORDER[0] == "director"
    ensures RouteBackTarget(v).Some? ==> RouteBackTarget(v).value < 7
    ensures (exists i :: 0 <= i < |v.failing| && v.failing[i] in PIPELINE_ORDER) ==>
      RouteBackTarget(v).Some? && PIPELINE_ORDER[RouteBackTarget(v).value] in v.failing
      && forall j :: 0 <= j < RouteBackTarget(v).value ==> PIPELINE_ORDER[j] !in v.failing
    ensures RouteBackTarget(v).None?
      <==> v.terminal && forall i :: 0 <= i < |v.failing| ==> v.failing[i] !in PIPELINE_ORDER
    ensures v.failing == [] && !v.terminal && (exists j :: 0 <= j < 7 && PIPELINE_ORDER[j] in v.named) ==>
      RouteBackTarget(v).Some? && PIPELINE_ORDER[RouteBackTarget(v).value] in v.named
      && forall j :: 0 <= j < RouteBackTarget(v).value ==> PIPELINE_ORDER[j] !in v.named
    ensures (!v.terminal && (forall j :: 0 <= j < 7 ==> PIPELINE_ORDER[j] !in v.failing)
             && (v.failing != [] || forall j :: 0 <= j < 7 ==> PIPELINE_ORDER[j] !in v.named))
      ==> RouteBackTarget(v) == Some(0)
  {
    var p := EarliestFrom(Names(v.failing), 0);
    assert forall x :: x in Names(v.failing) <==> x in v.failing;
    forall i | 0 <= i < |v.failing| && v.failing[i] in PIPELINE_ORDER ensures p < 7 {
      var k :| 0 <= k < 7 && PIPELINE_ORDER[k] == v.failing[i];
      assert PIPELINE_ORDER[k] in Names(v.failing);
    }
  }

  // ---- Running the graph ---------------------------------------------------

  /**
   A run in progress: the node about to run, the shared state, a clock, when each specialist
   last ran, how often the validator ran, and every layer the run started from or produced.
   */
  datatype Run = Run(pos: nat, st: State, now: int, lastRun: seq<int>, passes: nat, history: seq<LayerSpec>)

  /** What the outside contributes to a step: the specialist's layer, if any, or the validator's
      verdict, where `None` is a timeout or an exception. */
  datatype Env = Env(layer: Option<LayerSpec>, verdict: Option<Verdict>)

  function Contributed(e: Env): seq<LayerSpec> { if e.layer.None? then [] else [e.layer.value] }

  function StepSpecialist(r: Run, e: Env): Run
    requires r.pos < VALIDATOR && |r.lastRun| == 7
  {
    r.(pos := r.pos + 1, now := r.now + 1, lastRun := r.lastRun[r.pos := r.now],
       st := r.st.(layers := Merge(r.st.layers + Contributed(e))), history := r.history + Contributed(e))
  }

  function StepValidator(r: Run, e: Env): Run {
    var rejected := Verdict(false, [], false, {});
    var st := r.st.(rounds := Some(Rounds(r.st) + 1),
      verdict := if e.verdict.None? then Some(rejected) else e.verdict,
      validatorErrored := e.verdict.None? || r.st.validatorErrored);
    r.(pos := AfterValidator(st), st := st, now := r.now + 1, passes := r.passes + 1)
  }

  function Step(r: Run, e: Env): Run
    requires |r.lastRun| == 7
  {
    if r.pos < VALIDATOR then StepSpecialist(r, e) else if r.pos == VALIDATOR then StepValidator(r, e) else r
  }

  function Steps(r: Run, envs: seq<Env>): Run
    requires |r.lastRun| == 7
    decreases |envs|
  {
    if envs == [] then r else Steps(Step(r, envs[0]), envs[1..])
  }

  function Start(st: State): Run { Run(0, st, 0, [-1, -1, -1, -1, -1, -1, -1], 0, st.layers) }

  // ---- One node run --------------------------------------------------------

  /** Something a re-run can repair: the fault is not terminal, or a pipeline specialist is blamed. */
  predicate Repairable(v: Verdict) {
    !v.terminal || exists i :: 0 <= i < |v.failing| && v.failing[i] in PIPELINE_ORDER
  }

  /**
   What follows a validator run. The run ends exactly when the validator failed, now or before, or
   accepted, or the third round is used up, or nothing can be repaired; otherwise the routed
   specialist runs next. Each validator run uses up one round, counting a missing or negative count as
   none used, and touches no layer.
   */
  lemma ValidatorSuccessor(r: Run, e: Env)
    requires r.pos == VALIDATOR && |r.lastRun| == 7
    ensures var next := Step(r, e);
      && (next.pos == END
          <==> e.verdict.None? || r.st.validatorErrored || e.verdict.value.accepted
               || Rounds(r.st) + 1 >= MAX_ROUNDS || !Repairable(e.verdict.value))
      && (next.pos != END ==> next.pos < VALIDATOR && RouteBackTarget(e.verdict.value) == Some(next.pos))
      && Rounds(next.st) == Rounds(r.st) + 1 && next.passes == r.passes + 1
      && next.st.rounds == Some(1 + if r.st.rounds.Some? && r.st.rounds.value > 0 then r.st.rounds.value else 0)
      && next.st.layers == r.st.layers && next.lastRun == r.lastRun
  {
    if e.verdict.Some? {
      RouteBackEarliest(e.verdict.value);
      hide RouteBackTarget;
    }
  }

  /** What follows a specialist run: the next node of the chain, with its layer in place and no other changed. */
  lemma SpecialistSuccessor(r: Run, e: Env)
    requires r.pos < VALIDATOR && |r.lastRun| == 7 && OnePerKey(r.st.layers)
    ensures var next := Step(r, e);
      && next.pos == r.pos + 1 && next.passes == r.passes && next.st == r.st.(layers := next.st.layers)
      && next.lastRun[r.pos] == r.now < next.now
      && (e.layer.None? ==> next.st.layers == r.st.layers)
      && (e.layer.Some? ==>
          && e.layer.value in next.st.layers
          && forall l :: Key(l) != Key(e.layer.value) ==> (l in next.st.layers <==> l in r.st.layers))
  {
    MergeFixed(r.st.layers);
    if e.layer.None? {
      assert r.st.layers + [] == r.st.layers;
    } else {
      var l := e.layer.value;
      MergeSnoc(r.st.layers, l);
      UpsertUnique(r.st.layers, l);
      UpsertMembers(r.st.layers, l);
      hide Upsert, Merge;
    }
  }

  lemma UpsertMembers(ls: seq<LayerSpec>, l: LayerSpec)
    ensures l in Upsert(ls, l)
    ensures forall x :: Key(x) != Key(l) ==> (x in Upsert(ls, l) <==> x in ls)
  {
    var next := Upsert(ls, l);
    assert next[IndexOfKey(ls, Key(l))] == l;
    forall x | Key(x) != Key(l) && x in ls ensures x in next {
      var i :| 0 <= i < |ls| && ls[i] == x;
      assert next[i] == x;
    }
  }

  // ---- Termination ---------------------------------------------------------

  function RoundsLeft(r: Run): nat { if Rounds(r.st) >= MAX_ROUNDS then 1 else MAX_ROUNDS - Rounds(r.st) }

  /** Rounds left and pipeline position, as one number. */
  function Measure(r: Run): nat { if r.pos >= END then 0 else RoundsLeft(r) * 8 - r.pos }

  lemma MeasureDecreases(r: Run, e: Env)
    requires r.pos < END && |r.lastRun| == 7
    ensures Measure(Step(r, e)) < Measure(r)
  {
    if r.pos == VALIDATOR {
      var next := StepValidator(r, e);
      if next.pos < END { RouteBackEarliest(next.st.verdict.value); }
    }
  }

  /** Passes made, plus rounds that may still be used, never grow. */
  ghost predicate PassInv(r: Run, budget: nat) {
    r.passes + (if r.pos >= END then 0 else RoundsLeft(r)) <= budget
  }

  lemma PassStep(r: Run, e: Env, budget: nat)
    requires r.pos <= END && |r.lastRun| == 7 && PassInv(r, budget)
    ensures PassInv(Step(r, e), budget) && Step(r, e).pos <= END
  {
    if r.pos == VALIDATOR {
      var next := StepValidator(r, e);
      if next.pos != END { RouteBackEarliest(next.st.verdict.value); }
    }
  }

  lemma {:induction false} LoopEnds(r: Run, envs: seq<Env>, budget: nat)
    requires r.pos <= END && |r.lastRun| == 7 && PassInv(r, budget)
    ensures var last := Steps(r, envs);
      last.passes <= budget && (|envs| >= Measure(r) ==> last.pos == END)
    decreases |envs|
  {
    if envs != [] {
      PassStep(r, envs[0], budget);
      if r.pos < END { MeasureDecreases(r, envs[0]); }
      LoopEnds(Step(r, envs[0]), envs[1..], budget);
    }
  }

  /**
   The revision loop ends: from a state with no round used, and whatever the specialists and
   the validator do, the run is over after at most 24 node runs and 3 validator passes.
   */
  lemma RevisionLoopEnds(st: State, envs: seq<Env>)
    requires Rounds(st) == 0
    ensures Steps(Start(st), envs).passes <= MAX_ROUNDS
    ensures |envs| >= 24 ==> Steps(Start(st), envs).pos == END
  {
    LoopEnds(Start(st), envs, MAX_ROUNDS);
  }

  // ---- What the validator sees ---------------------------------------------

  ghost predicate Increasing(lastRun: seq<int>, n: nat) {
    forall i, j :: 0 <= i < j < n <= |lastRun| ==> lastRun[i] < lastRun[j]
  }

  ghost predicate RunInv(r: Run) {
    && |r.lastRun| == 7 && r.pos <= END && r.now >= 0
    && (forall i :: 0 <= i < 7 ==> r.lastRun[i] < r.now)
    && (r.pos <= VALIDATOR ==> Increasing(r.lastRun, r.pos) && forall i :: 0 <= i < r.pos ==> r.lastRun[i] >= 0)
    && r.st.layers == Merge(r.history)
  }

  lemma RunStep(r: Run, e: Env)
    requires RunInv(r)
    ensures RunInv(Step(r, e))
  {
    if r.pos < VALIDATOR {
      MergeAbsorbs(r.history, Contributed(e));
    } else if r.pos == VALIDATOR {
      var next := StepValidator(r, e);
      if next.pos != END { RouteBackEarliest(next.st.verdict.value); }
    }
  }

  lemma {:induction false} RunKeeps(r: Run, envs: seq<Env>)
    requires RunInv(r)
    ensures RunInv(Steps(r, envs))
    decreases |envs|
  {
    if envs != [] {
      RunStep(r, envs[0]);
      RunKeeps(Step(r, envs[0]), envs[1..]);
    }
  }

  /**
   At every entry to the validator, each specialist last ran strictly after its predecessor, and
   the layers are one per (specialist, region), each the most recently produced, so that a failed
   re-run leaves the older layer in place.
   */
  lemma ValidatorEntry(st: State, envs: seq<Env>)
    requires OnePerKey(st.layers)
    ensures var r := Steps(Start(st), envs);
      && Current(r.st.layers, r.history)
      && (r.pos == VALIDATOR ==>
          |r.lastRun| == 7 && Increasing(r.lastRun, 7) && forall i :: 0 <= i < 7 ==> r.lastRun[i] >= 0)
  {
    MergeFixed(st.layers);
    RunKeeps(Start(st), envs);
    MergeCurrent(Steps(Start(st), envs).history);
  }

  /** A specialist that fails or times out leaves every layer as it was. */
  lemma FailedRunKeepsLayers(r: Run, e: Env)
    requires RunInv(r) && e.layer.None?
    ensures Step(r, e).st.layers == r.st.layers
  {
    MergeCurrent(r.history);
    MergeFixed(r.st.layers);
    assert r.st.layers + [] == r.st.layers;
  }
}
