/**
 When a match forms and with whom: rating-nearest selection with a force cap for the ranked
 queue, one of each kind for the mixed queue, first come first served for the human queue.
 */
module Formation {
  import opened Common
  import opened Selection

  type Ladder = map<string, int>

  datatype FormParams = FormParams(seats: nat, tolerance: int, defaultRating: int)

  const RANKED_FORCE_POOL_MULTIPLE: nat := 2

  // ---- Ranked selection ----------------------------------------------------

  function RatingOf(p: FormParams, ratings: Ladder, id: string): int {
    if id in ratings then ratings[id] else p.defaultRating
  }

  function AbsDiff(a: int, b: int): nat { if a < b then b - a else a - b }

  /** Each waiting agent's rating distance from the longest-waiting one. */
  function Gaps(p: FormParams, ratings: Ladder, q: seq<Seated>): (gaps: seq<nat>)
    requires q != []
    ensures |gaps| == |q|
  {
    seq(|q|, i requires 0 <= i < |q| =>
      AbsDiff(RatingOf(p, ratings, q[i].agentId), RatingOf(p, ratings, q[0].agentId)))
  }

  /** The sort key (gap, arrival index). */
  predicate Nearer(gaps: seq<nat>, i: nat, j: nat)
    requires i < |gaps| && j < |gaps|
  {
    gaps[i] < gaps[j] || (gaps[i] == gaps[j] && i < j)
  }

  predicate Below(xs: seq<nat>, n: nat) { forall i :: 0 <= i < |xs| ==> xs[i] < n }

  function InsertNear(gaps: seq<nat>, x: nat, xs: seq<nat>): (r: seq<nat>)
    requires x < |gaps| && Below(xs, |gaps|)
    ensures |r| == |xs| + 1 && Below(r, |gaps|)
  {
    if xs == [] || Nearer(gaps, x, xs[0]) then [x] + xs else [xs[0]] + InsertNear(gaps, x, xs[1..])
  }

  /** The indices 1..n sorted by `Nearer`. */
  function SortedOthers(gaps: seq<nat>, n: nat): (r: seq<nat>)
    requires 1 <= n <= |gaps|
    ensures |r| == n - 1 && Below(r, |gaps|)
  {
    if n == 1 then [] else InsertNear(gaps, n - 1, SortedOthers(gaps, n - 1))
  }

  ghost predicate ByNearness(gaps: seq<nat>, xs: seq<nat>)
    requires Below(xs, |gaps|)
  {
    forall i, j :: 0 <= i < j < |xs| ==> Nearer(gaps, xs[i], xs[j])
  }

  lemma {:induction false} InsertNearSorted(gaps: seq<nat>, x: nat, xs: seq<nat>)
    requires x < |gaps| && Below(xs, |gaps|) && x !in xs && ByNearness(gaps, xs)
    ensures ByNearness(gaps, InsertNear(gaps, x, xs))
    ensures forall y: nat :: y in InsertNear(gaps, x, xs) <==> y == x || y in xs
  {
    if xs != [] && !Nearer(gaps, x, xs[0]) {
      var rest := InsertNear(gaps, x, xs[1..]);
      InsertNearSorted(gaps, x, xs[1..]);
      forall j | 0 <= j < |rest| ensures Nearer(gaps, xs[0], rest[j]) {
        assert rest[j] in rest;
        if rest[j] != x {
          var k :| 0 <= k < |xs[1..]| && xs[1..][k] == rest[j];
        }
      }
    }
  }

  lemma {:induction false} SortedOthersSorted(gaps: seq<nat>, n: nat)
    requires 1 <= n <= |gaps|
    ensures ByNearness(gaps, SortedOthers(gaps, n))
    ensures forall y: nat :: y in SortedOthers(gaps, n) <==> 1 <= y < n
  {
    if n > 1 {
      SortedOthersSorted(gaps, n - 1);
      InsertNearSorted(gaps, n - 1, SortedOthers(gaps, n - 1));
    }
  }

  function MaxGap(gaps: seq<nat>, picks: seq<nat>): (m: nat)
    requires Below(picks, |gaps|)
    ensures forall i :: 0 <= i < |picks| ==> gaps[picks[i]] <= m
    ensures picks != [] ==> exists i :: 0 <= i < |picks| && gaps[picks[i]] == m
  {
    if picks == [] then 0 else
      var n := |picks| - 1;
      var rest := MaxGap(gaps, picks[..n]);
      if n == 0 || rest < gaps[picks[n]] then gaps[picks[n]] else rest
  }

  /** The anchor and the seats - 1 nearest others. */
  function RankedPicks(gaps: seq<nat>, seats: nat): (picks: seq<nat>)
    requires 1 <= seats <= |gaps|
    ensures |picks| == seats && picks[0] == 0 && Below(picks, |gaps|)
  {
    [0] + SortedOthers(gaps, |gaps|)[..seats - 1]
  }

  /** `select_ranked`: `None` leaves the pool waiting for a closer match. */
  function SelectRanked(p: FormParams, ratings: Ladder, q: seq<Seated>): Option<seq<nat>> {
    if p.seats == 0 || |q| < p.seats then None else
      var gaps := Gaps(p, ratings, q);
      var picks := RankedPicks(gaps, p.seats);
      if MaxGap(gaps, picks) <= p.tolerance || |q| >= p.seats * RANKED_FORCE_POOL_MULTIPLE then Some(picks) else None
  }

  /**
   Ranked picks are the longest-waiting agent and exactly its nearest others by (rating gap,
   arrival index).
   */
  lemma RankedPicksNearest(gaps: seq<nat>, seats: nat)
    requires 1 <= seats <= |gaps|
    ensures var picks := RankedPicks(gaps, seats);
      && Distinct(picks)
      && (forall a, j: nat :: 1 <= a < seats && j < |gaps| && j !in picks ==> Nearer(gaps, picks[a], j))
  {
    var others := SortedOthers(gaps, |gaps|);
    var picks := RankedPicks(gaps, seats);
    SortedOthersSorted(gaps, |gaps|);
    forall i, j | 0 <= i < j < |picks| ensures picks[i] != picks[j] {
      assert picks[j] == others[j - 1] && others[j - 1] in others;
      if i > 0 { assert Nearer(gaps, others[i - 1], others[j - 1]); }
    }
    assert forall c :: 0 <= c < seats - 1 ==> picks[c + 1] == others[c];
    forall a, j: nat | 1 <= a < seats && j < |gaps| && j !in picks ensures Nearer(gaps, picks[a], j) {
      assert picks[0] != j;
      assert j in others;
      var b :| 0 <= b < |others| && others[b] == j;
      assert picks[a] == others[a - 1];
    }
  }

  /** A pool of at least `seats` waits only when some pick is out of tolerance and it is under two matches. */
  lemma RankedWaits(p: FormParams, ratings: Ladder, q: seq<Seated>)
    requires 1 <= p.seats <= |q|
    ensures var gaps := Gaps(p, ratings, q);
      var picks := RankedPicks(gaps, p.seats);
      SelectRanked(p, ratings, q) ==
        if |q| < 2 * p.seats && exists i :: 0 <= i < |picks| && gaps[picks[i]] > p.tolerance then None else Some(picks)
  {}

  // ---- Mixed selection -----------------------------------------------------

  function FirstOf(q: seq<Seated>, kind: Kind): (r: Option<nat>)
    ensures r.None? <==> forall i :: 0 <= i < |q| ==> q[i].kind != kind
    ensures r.Some? ==> r.value < |q| && q[r.value].kind == kind && forall i :: 0 <= i < r.value ==> q[i].kind != kind
  {
    if q == [] then None
    else if q[0].kind == kind then Some(0)
    else match FirstOf(q[1..], kind)
      case None => None
      case Some(i) => Some(i + 1)
  }

  /** The fill loop of `select_mixed`, from index i on. */
  function MixedFill(n: nat, human: nat, agent: nat, seats: nat, i: nat, picks: seq<nat>): seq<nat>
    requires i <= n
    decreases n - i
  {
    if i == n || |picks| == seats then picks
    else MixedFill(n, human, agent, seats, i + 1, if i != human && i != agent then picks + [i] else picks)
  }

  /** The picks made so far: one of each kind, then everyone before i. */
  ghost predicate FillInv(n: nat, human: nat, agent: nat, seats: nat, i: nat, picks: seq<nat>) {
    && human < n && agent < n && human != agent && i <= n && |picks| <= seats && Distinct(picks)
    && forall y: nat :: y in picks <==> y == human || y == agent || y < i
  }

  lemma {:induction false} MixedFillGood(n: nat, human: nat, agent: nat, seats: nat, i: nat, picks: seq<nat>)
    returns (j: nat)
    requires FillInv(n, human, agent, seats, i, picks) && seats <= n
    ensures var r := MixedFill(n, human, agent, seats, i, picks);
      FillInv(n, human, agent, seats, j, r) && |r| == seats
    decreases n - i
  {
    if |picks| == seats {
      j := i;
    } else if i == n {
      j := i;
      DistinctSize(picks);
      UpToSize(n);
      forall y: nat ensures y in ToSet(picks) <==> y in picks {}
      assert ToSet(picks) == ToSet(UpTo(n));
    } else if i != human && i != agent {
      assert i !in picks;
      j := MixedFillGood(n, human, agent, seats, i + 1, picks + [i]);
    } else {
      j := MixedFillGood(n, human, agent, seats, i + 1, picks);
    }
  }

  function UpTo(n: nat): seq<nat> { seq(n, i => i) }

  lemma UpToSize(n: nat)
    ensures |ToSet(UpTo(n))| == n && Distinct(UpTo(n)) && forall y: nat :: y in ToSet(UpTo(n)) <==> y < n
  {
    DistinctSize(UpTo(n));
    forall y: nat | y < n ensures y in ToSet(UpTo(n)) { assert UpTo(n)[y] == y; }
  }

  function MixedPicks(p: FormParams, q: seq<Seated>): Option<seq<nat>> {
    if p.seats < 2 then None else
      match (FirstOf(q, Human), FirstOf(q, Agent))
      case (Some(human), Some(agent)) => Some(MixedFill(|q|, human, agent, p.seats, 0, [human, agent]))
      case _ => None
  }

  /** `select_mixed`. */
  method SelectMixed(p: FormParams, q: seq<Seated>) returns (r: Option<seq<nat>>)
    ensures r == MixedPicks(p, q)
  {
    if p.seats < 2 {
      return None;
    }
    var firstHuman, firstAgent := FirstOf(q, Human), FirstOf(q, Agent);
    if firstHuman.None? || firstAgent.None? {
      return None;
    }
    var human, agent := firstHuman.value, firstAgent.value;
    var picks: seq<nat> := [human, agent];
    var i := 0;
    while i < |q| && |picks| != p.seats
      invariant i <= |q|
      invariant MixedFill(|q|, human, agent, p.seats, i, picks)
        == MixedFill(|q|, human, agent, p.seats, 0, [human, agent])
    {
      if i != human && i != agent {
        picks := picks + [i];
      }
      i := i + 1;
    }
    return Some(picks);
  }

  /** A mixed match seats the earliest human and the earliest agent, then arrivals in order. */
  lemma MixedPicksGood(p: FormParams, q: seq<Seated>)
    requires 2 <= p.seats <= |q|
    ensures MixedPicks(p, q).None? <==> SingleKind(q)
    ensures MixedPicks(p, q).Some? ==>
      var picks := MixedPicks(p, q).value;
      && |picks| == p.seats
      && exists j: nat :: j <= |q|
           && FillInv(|q|, FirstOf(q, Human).value, FirstOf(q, Agent).value, p.seats, j, picks)
  {
    match (FirstOf(q, Human), FirstOf(q, Agent)) {
      case (Some(human), Some(agent)) =>
        assert q[human].kind != q[agent].kind;
        assert forall y: nat :: y in [human, agent] <==> y == human || y == agent;
        var j := MixedFillGood(|q|, human, agent, p.seats, 0, [human, agent]);
      case _ =>
    }
  }

  // ---- Forming -------------------------------------------------------------

  ghost predicate AllKind(q: seq<Seated>, kind: Kind) { forall i :: 0 <= i < |q| ==> q[i].kind == kind }
  ghost predicate SingleKind(q: seq<Seated>) { AllKind(q, Human) || AllKind(q, Agent) }

  /** Whom `try_form` takes, if it can meet the mode's composition. */
  function Picks(p: FormParams, mode: Mode, ratings: Ladder, q: seq<Seated>): Option<seq<nat>> {
    if p.seats == 0 || |q| < p.seats then None else
      match mode
      case HumanMode => Some(UpTo(p.seats))
      case AgentMode => SelectRanked(p, ratings, q)
      case MixedMode => MixedPicks(p, q)
  }

  lemma PicksGood(p: FormParams, mode: Mode, ratings: Ladder, q: seq<Seated>)
    requires p.seats >= 2 && Picks(p, mode, ratings, q).Some?
    ensures var picks := Picks(p, mode, ratings, q).value;
      && |picks| == p.seats && Distinct(picks) && Below(picks, |q|)
      && (mode.AgentMode? ==> picks[0] == 0)
  {
    match mode
    case HumanMode =>
    case AgentMode => RankedPicksNearest(Gaps(p, ratings, q), p.seats);
    case MixedMode =>
      MixedPicksGood(p, q);
      var picks := MixedPicks(p, q).value;
      forall i | 0 <= i < |picks| ensures picks[i] < |q| { assert picks[i] in picks; }
  }

  /** The roster taken and the queue left behind. */
  function Formed(p: FormParams, mode: Mode, ratings: Ladder, q: seq<Seated>): (Option<seq<Seated>>, seq<Seated>) {
    match Picks(p, mode, ratings, q)
    case None => (None, q)
    case Some(picks) => (Some(Chosen(q, ToSet(picks), 0)), Rest(q, ToSet(picks), 0))
  }

  /** `try_form`, removing the picks from the queue by index. */
  method TryForm(p: FormParams, mode: Mode, ratings: Ladder, q: seq<Seated>)
    returns (roster: Option<seq<Seated>>, queue: seq<Seated>)
    requires p.seats >= 2
    ensures (roster, queue) == Formed(p, mode, ratings, q)
  {
    if p.seats == 0 || |q| < p.seats {
      return None, q;
    }
    var selected: Option<seq<nat>>;
    match mode {
      case HumanMode => selected := Some(UpTo(p.seats));
      case AgentMode => selected := SelectRanked(p, ratings, q);
      case MixedMode => selected := SelectMixed(p, q);
    }
    if selected.None? {
      return None, q;
    }
    PicksGood(p, mode, ratings, q);
    SortAscendingSorts(selected.value);
    var sorted := SortAscending(selected.value);
    SameMembers(sorted, selected.value);
    forall i | 0 <= i < |sorted| ensures sorted[i] < |q| { assert sorted[i] in sorted && sorted[i] in selected.value; }
    var taken, left := RemovePicks(q, sorted);
    return Some(taken), left;
  }

  // ---- Exactly when a match forms, and with whom ---------------------------

  /** How far a waiting agent is rated above the longest-waiting one. */
  function Above(p: FormParams, ratings: Ladder, q: seq<Seated>, i: nat): int
    requires i < |q|
  {
    RatingOf(p, ratings, q[i].agentId) - RatingOf(p, ratings, q[0].agentId)
  }

  /** The places whose rating is within the tolerance of the longest-waiting agent's, on either side. */
  function WithinTolerance(p: FormParams, ratings: Ladder, q: seq<Seated>): set<nat> {
    set i: nat | i < |q| && -p.tolerance <= Above(p, ratings, q, i) <= p.tolerance
  }

  lemma GapIsDistance(p: FormParams, ratings: Ladder, q: seq<Seated>, i: nat, d: int)
    requires i < |q|
    ensures Gaps(p, ratings, q)[i] <= d <==> -d <= Above(p, ratings, q, i) <= d
  {}

  lemma {:induction false} SetBound(s: set<nat>, t: set<nat>)
    requires s <= t
    ensures |s| <= |t|
    decreases |s|
  {
    if x :| x in s { SetBound(s - {x}, t - {x}); }
  }

  /** The nearest are all within a tolerance exactly when enough of the pool is. */
  lemma NearestWithin(p: FormParams, ratings: Ladder, q: seq<Seated>)
    requires 1 <= p.seats <= |q|
    ensures var gaps := Gaps(p, ratings, q);
      MaxGap(gaps, RankedPicks(gaps, p.seats)) <= p.tolerance <==> |WithinTolerance(p, ratings, q)| >= p.seats
  {
    var gaps := Gaps(p, ratings, q);
    var picks := RankedPicks(gaps, p.seats);
    var near := WithinTolerance(p, ratings, q);
    RankedPicksNearest(gaps, p.seats);
    DistinctSize(picks);
    forall i: nat | i < |q| ensures i in near <==> gaps[i] <= p.tolerance {
      GapIsDistance(p, ratings, q, i, p.tolerance);
    }
    hide Gaps, RankedPicks, WithinTolerance;
    if MaxGap(gaps, picks) <= p.tolerance {
      SetBound(ToSet(picks), near);
    } else {
      var a :| 0 <= a < |picks| && gaps[picks[a]] > p.tolerance;
      FarPickBounds(gaps, picks, near, p.tolerance, a);
    }
  }

  /** When one of the nearest is too far, fewer than a match are near enough. */
  lemma FarPickBounds(gaps: seq<nat>, picks: seq<nat>, near: set<nat>, tolerance: int, a: nat)
    requires picks != [] && Below(picks, |gaps|) && Distinct(picks) && picks[0] == 0 && gaps[0] == 0
    requires forall i: nat :: i in near ==> i < |gaps| && gaps[i] <= tolerance
    requires forall b, j: nat :: 1 <= b < |picks| && j < |gaps| && j !in picks ==> Nearer(gaps, picks[b], j)
    requires a < |picks| && gaps[picks[a]] > tolerance
    ensures |near| < |picks|
  {
    DistinctSize(picks);
    forall i | i in near ensures i in ToSet(picks) - {picks[a]} {
      assert a > 0 && i !in picks ==> Nearer(gaps, picks[a], i);
    }
    assert picks[a] in ToSet(picks);
    SetBound(near, ToSet(picks) - {picks[a]});
  }

  /**
   When the ranked queue forms a match, in ratings: exactly when it holds a match's worth of agents
   and either two matches' worth are waiting or a match's worth of them are rated within the
   tolerance of the longest-waiting one.
   */
  lemma RankedFormsExactly(p: FormParams, ratings: Ladder, q: seq<Seated>)
    requires p.seats >= 2
    ensures Formed(p, AgentMode, ratings, q).0.Some?
      <==> |q| >= p.seats && (|q| >= 2 * p.seats || |WithinTolerance(p, ratings, q)| >= p.seats)
  {
    if |q| >= p.seats {
      NearestWithin(p, ratings, q);
      hide MaxGap, RankedPicks, Gaps, WithinTolerance;
    }
  }

  /** x is rated no further from the anchor than y, and strictly nearer unless it arrived first. */
  predicate SeatedBefore(x: int, y: int, first: bool) {
    && (x <= y || x <= -y) && (-x <= y || -x <= -y)
    && (x == y || x == -y ==> first)
  }

  /**
   Who sits in a ranked match, in ratings: the longest-waiting agent, and everyone seated is rated no
   further from it than anyone left, on either side, equal distances going to the earlier arrival.
   */
  lemma RankedSeatsNearest(p: FormParams, ratings: Ladder, q: seq<Seated>) returns (picks: set<nat>)
    requires p.seats >= 2 && Formed(p, AgentMode, ratings, q).0.Some?
    ensures Formed(p, AgentMode, ratings, q) == (Some(Chosen(q, picks, 0)), Rest(q, picks, 0))
    ensures |picks| == p.seats && InRange(picks, |q|) && 0 in picks
    ensures forall a, b: nat :: a in picks && b < |q| && b !in picks ==>
      SeatedBefore(Above(p, ratings, q, a), Above(p, ratings, q, b), a < b)
  {
    var gaps := Gaps(p, ratings, q);
    var chosen := RankedPicks(gaps, p.seats);
    picks := ToSet(chosen);
    RankedPicksNearest(gaps, p.seats);
    DistinctSize(chosen);
    assert chosen[0] == 0;
    forall a, b: nat | a in picks && b < |q| && b !in picks
      ensures SeatedBefore(Above(p, ratings, q, a), Above(p, ratings, q, b), a < b)
    {
      var c :| 0 <= c < |chosen| && chosen[c] == a;
      assert b !in chosen;
      if c > 0 { assert Nearer(gaps, chosen[c], b); }
      NearerInRatings(p, ratings, q, a, b);
    }
  }

  lemma NearerInRatings(p: FormParams, ratings: Ladder, q: seq<Seated>, a: nat, b: nat)
    requires a < |q| && b < |q| && a != b && (a == 0 || Nearer(Gaps(p, ratings, q), a, b))
    ensures SeatedBefore(Above(p, ratings, q, a), Above(p, ratings, q, b), a < b)
  {}

  /** The human queue forms a match exactly when it holds one, of the first arrivals in order. */
  lemma HumanFormsExactly(p: FormParams, ratings: Ladder, q: seq<Seated>)
    requires p.seats >= 2
    ensures Formed(p, HumanMode, ratings, q)
      == if |q| >= p.seats then (Some(q[..p.seats]), q[p.seats..]) else (None, q)
  {
    if |q| >= p.seats {
      var picks := ToSet(UpTo(p.seats));
      UpToSize(p.seats);
      FirstChosen(q, picks, p.seats, 0);
      assert q[0..p.seats] == q[..p.seats];
    }
  }

  lemma {:induction false} FirstChosen(q: seq<Seated>, picks: set<nat>, n: nat, i: nat)
    requires i <= |q| && n <= |q| && forall k: nat :: k in picks <==> k < n
    ensures Rest(q, picks, i) == q[if i < n then n else i..]
    ensures Chosen(q, picks, i) == q[i..if i < n then n else i]
    decreases |q| - i
  {
    if i < |q| {
      FirstChosen(q, picks, n, i + 1);
      assert i < n ==> q[i..n] == [q[i]] + q[i + 1..n];
      assert i >= n ==> q[i..] == [q[i]] + q[i + 1..];
    }
  }

  predicate FirstOfKind(q: seq<Seated>, i: nat) {
    i < |q| && forall k :: 0 <= k < i ==> q[k].kind != q[i].kind
  }

  /** A mixed selection: the first of each kind, and for the rest the earliest arrivals. */
  ghost predicate MixedSeats(q: seq<Seated>, seats: nat, picks: set<nat>) {
    && |picks| == seats && InRange(picks, |q|)
    && (forall i: nat :: FirstOfKind(q, i) ==> i in picks)
    && (forall a, b: nat :: a in picks && b < a && b !in picks ==> FirstOfKind(q, a))
  }

  lemma FilledIsMixed(q: seq<Seated>, seats: nat, j: nat, chosen: seq<nat>)
    requires FirstOf(q, Human).Some? && FirstOf(q, Agent).Some? && |chosen| == seats
    requires FillInv(|q|, FirstOf(q, Human).value, FirstOf(q, Agent).value, seats, j, chosen)
    ensures MixedSeats(q, seats, ToSet(chosen))
  {
    var picks := ToSet(chosen);
    var human, agent := FirstOf(q, Human).value, FirstOf(q, Agent).value;
    DistinctSize(chosen);
    forall i: nat ensures i in picks <==> i == human || i == agent || i < j {
      assert i in picks <==> i in chosen;
    }
    forall i: nat | FirstOfKind(q, i) ensures i in picks {
      assert i == if q[i].kind == Human then human else agent;
    }
    forall a, b: nat | a in picks && b < a && b !in picks ensures FirstOfKind(q, a) {}
  }

  /** The mixed queue forms a match exactly when it holds one's worth of seats and both kinds. */
  lemma MixedFormsExactly(p: FormParams, ratings: Ladder, q: seq<Seated>) returns (picks: set<nat>)
    requires p.seats >= 2
    ensures Formed(p, MixedMode, ratings, q).0.Some?
      <==> |q| >= p.seats && HasKind(q, Human) && HasKind(q, Agent)
    ensures Formed(p, MixedMode, ratings, q).0.Some? ==>
      MixedSeats(q, p.seats, picks)
      && Formed(p, MixedMode, ratings, q) == (Some(Chosen(q, picks, 0)), Rest(q, picks, 0))
  {
    picks := {};
    if |q| >= p.seats {
      MixedPicksGood(p, q);
      if MixedPicks(p, q).Some? {
        var chosen := MixedPicks(p, q).value;
        picks := ToSet(chosen);
        var human, agent := FirstOf(q, Human).value, FirstOf(q, Agent).value;
        var j: nat :| j <= |q| && FillInv(|q|, human, agent, p.seats, j, chosen);
        FilledIsMixed(q, p.seats, j, chosen);
      }
      hide MixedPicks, FillInv, MixedSeats;
    }
  }

  lemma SameMembers(xs: seq<nat>, ys: seq<nat>)
    requires forall y: nat :: y in xs <==> y in ys
    ensures ToSet(xs) == ToSet(ys)
  {
    forall y: nat ensures y in ToSet(xs) <==> y in xs {}
    forall y: nat ensures y in ToSet(ys) <==> y in ys {}
  }

  // ---- What every formation keeps ------------------------------------------

  predicate HasKind(roster: seq<Seated>, kind: Kind) { exists i :: 0 <= i < |roster| && roster[i].kind == kind }

  /** `composition_ok`: the assertion checked before a match starts. */
  predicate CompositionOk(mode: Mode, roster: seq<Seated>) {
    match mode
    case HumanMode => !HasKind(roster, Agent) && HasKind(roster, Human)
    case AgentMode => !HasKind(roster, Human) && HasKind(roster, Agent)
    case MixedMode => HasKind(roster, Human) && HasKind(roster, Agent)
  }

  /** A human match is all human, a ranked match all agents, a mixed match neither; none is empty. */
  lemma CompositionExactly(mode: Mode, roster: seq<Seated>)
    ensures CompositionOk(mode, roster)
      <==> match mode
           case HumanMode => roster != [] && AllKind(roster, Human)
           case AgentMode => roster != [] && AllKind(roster, Agent)
           case MixedMode => !AllKind(roster, Human) && !AllKind(roster, Agent)
  {
    assert forall i :: 0 <= i < |roster| ==> roster[i].kind == Human || roster[i].kind == Agent;
    assert roster != [] ==> roster[0].kind == Human || roster[0].kind == Agent;
  }

  /** The shape of a mode's queue between joins. */
  ghost predicate QueueOk(p: FormParams, mode: Mode, q: seq<Seated>) {
    match mode
    case HumanMode => AllKind(q, Human) && |q| < p.seats
    case AgentMode => AllKind(q, Agent) && |q| < 2 * p.seats
    case MixedMode => |q| < p.seats || SingleKind(q)
  }

  predicate KindAllowed(mode: Mode, kind: Kind) {
    (mode.HumanMode? ==> kind.Human?) && (mode.AgentMode? ==> kind.Agent?)
  }

  /** What a formation takes and leaves, for any mode. */
  lemma FormedParts(p: FormParams, mode: Mode, ratings: Ladder, q: seq<Seated>)
    requires p.seats >= 2
    ensures var (roster, left) := Formed(p, mode, ratings, q);
      && (roster.None? ==> left == q)
      && (roster.Some? ==>
          && |roster.value| == p.seats && |left| == |q| - p.seats
          && multiset(roster.value) + multiset(left) == multiset(q))
  {
    if Picks(p, mode, ratings, q).Some? {
      var picks := Picks(p, mode, ratings, q).value;
      PicksGood(p, mode, ratings, q);
      DistinctSize(picks);
      TakenAndLeft(q, ToSet(picks));
    }
  }

  lemma AllKindParts(q: seq<Seated>, picks: set<nat>, kind: Kind)
    requires AllKind(q, kind)
    ensures AllKind(Chosen(q, picks, 0), kind) && AllKind(Rest(q, picks, 0), kind)
  {
    MembersFromQueue(q, picks, 0);
    forall i | 0 <= i < |Chosen(q, picks, 0)| ensures Chosen(q, picks, 0)[i].kind == kind {
      assert Chosen(q, picks, 0)[i] in Chosen(q, picks, 0);
    }
    forall i | 0 <= i < |Rest(q, picks, 0)| ensures Rest(q, picks, 0)[i].kind == kind {
      assert Rest(q, picks, 0)[i] in Rest(q, picks, 0);
    }
  }

  /** When one arrival breaks a single-kind queue, it is the odd one out and gets picked. */
  lemma OddOneOut(q: seq<Seated>, x: Seated)
    requires SingleKind(q) && !SingleKind(q + [x])
    ensures q != [] && AllKind(q, q[0].kind)
    ensures FirstOf(q + [x], x.kind) == Some(|q|)
  {
    hide FirstOf;
    assert q == [] ==> AllKind(q + [x], x.kind);
    assert x.kind == q[0].kind ==> AllKind(q + [x], x.kind);
    var first := FirstOf(q + [x], x.kind);
    assert (q + [x])[|q|].kind == x.kind;
  }

  lemma LeftoverKind(q: seq<Seated>, x: Seated, picks: set<nat>, kind: Kind)
    requires AllKind(q, kind) && |q| in picks
    ensures AllKind(Rest(q + [x], picks, 0), kind)
  {
    var left := Rest(q + [x], picks, 0);
    MembersFromQueue(q + [x], picks, 0);
    forall i | 0 <= i < |left| ensures left[i].kind == kind { assert left[i] in left; }
  }

  lemma MixedRoster(p: FormParams, q: seq<Seated>)
    requires 2 <= p.seats <= |q| && MixedPicks(p, q).Some?
    ensures var picks := ToSet(MixedPicks(p, q).value);
      && FirstOf(q, Human).value in picks && FirstOf(q, Agent).value in picks
      && CompositionOk(MixedMode, Chosen(q, picks, 0))
  {
    MixedPicksGood(p, q);
    var human, agent := FirstOf(q, Human).value, FirstOf(q, Agent).value;
    assert human in MixedPicks(p, q).value && agent in MixedPicks(p, q).value;
    var picks := ToSet(MixedPicks(p, q).value);
    ChosenPlace(q, picks, 0, human);
    ChosenPlace(q, picks, 0, agent);
  }

  /** The mixed queue: a formed match holds both kinds and leaves a single-kind remainder. */
  lemma MixedJoin(p: FormParams, ratings: Ladder, q: seq<Seated>, x: Seated)
    requires p.seats >= 2 && QueueOk(p, MixedMode, q)
    ensures var (roster, left) := Formed(p, MixedMode, ratings, q + [x]);
      QueueOk(p, MixedMode, left) && (roster.Some? ==> CompositionOk(MixedMode, roster.value))
  {
    FormedParts(p, MixedMode, ratings, q + [x]);
    if |q| + 1 >= p.seats {
      MixedPicksGood(p, q + [x]);
      if MixedPicks(p, q + [x]).Some? {
        MixedRoster(p, q + [x]);
        if |q| >= p.seats {
          OddOneOut(q, x);
          LeftoverKind(q, x, ToSet(MixedPicks(p, q + [x]).value), q[0].kind);
        }
      }
    }
  }

  /** Queue shape over every join, and the composition assertion in `build` never fires. */
  lemma JoinKeepsQueue(p: FormParams, mode: Mode, ratings: Ladder, q: seq<Seated>, x: Seated)
    requires p.seats >= 2 && QueueOk(p, mode, q) && KindAllowed(mode, x.kind)
    ensures var (roster, left) := Formed(p, mode, ratings, q + [x]);
      && QueueOk(p, mode, left)
      && (roster.Some? ==> |roster.value| == p.seats && CompositionOk(mode, roster.value))
  {
    var q' := q + [x];
    FormedParts(p, mode, ratings, q');
    if mode.MixedMode? {
      MixedJoin(p, ratings, q, x);
    } else {
      var kind := if mode.HumanMode? then Human else Agent;
      assert AllKind(q', kind);
      if Picks(p, mode, ratings, q').Some? {
        var roster := Formed(p, mode, ratings, q').0.value;
        AllKindParts(q', ToSet(Picks(p, mode, ratings, q').value), kind);
        assert roster[0].kind == kind;
      }
    }
  }
}
