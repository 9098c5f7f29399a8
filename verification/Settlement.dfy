/**
 Settling ranked results into the rating ladder: the one-against-one route, the field route,
 and the exact effect of either on the sum of all ratings. The combat core's rating deltas
 are parameters.
 */
module Settlement {
  import opened Common
  import opened Formation

  type MatchId = nat

  datatype SeatOutcome = SeatOutcome(seat: nat, placement: nat, score: int)
  datatype MatchResult = MatchResult(matchId: MatchId, outcomes: seq<SeatOutcome>)
  datatype Pending = Pending(seqNo: nat, agents: seq<string>)
  type Registry = map<MatchId, Pending>

  /** The rating book and the registry of formed but unsettled ranked matches. */
  datatype Book = Book(ratings: Ladder, pending: Registry)

  /** `ranked_delta` and `ranked_field_delta` of the combat core. */
  datatype Core = Core(
    duel: (MatchResult, int, int, int) -> Option<(int, int)>,
    field: (MatchResult, seq<int>, int) -> Option<seq<int>>)

  const I32_MIN := -0x8000_0000
  const I32_MAX := 0x7fff_ffff

  function SaturatingAdd(a: int, b: int): int {
    if a + b < I32_MIN then I32_MIN else if a + b > I32_MAX then I32_MAX else a + b
  }

  /** The saturating sum is the i32 nearest to the true one. */
  lemma SaturatingNearest(a: int, b: int, v: int)
    requires I32_MIN <= v <= I32_MAX
    ensures var r := SaturatingAdd(a, b);
      && I32_MIN <= r <= I32_MAX
      && (v <= r <= a + b || a + b <= r <= v || r == a + b)
  {}

  function Sum(xs: seq<int>, n: nat): int
    requires n <= |xs|
  {
    if n == 0 then 0 else Sum(xs, n - 1) + xs[n - 1]
  }

  /** The documented contract: deltas come back one per seat, in outcome order, and sum to zero. */
  ghost predicate ZeroSum(core: Core) {
    && (forall r, a, b, k {:trigger core.duel(r, a, b, k)} ::
          core.duel(r, a, b, k).Some? ==> core.duel(r, a, b, k).value.0 + core.duel(r, a, b, k).value.1 == 0)
    && (forall r, rs, k {:trigger core.field(r, rs, k)} ::
          core.field(r, rs, k).Some? ==>
            |core.field(r, rs, k).value| == |rs| && Sum(core.field(r, rs, k).value, |rs|) == 0)
  }

  // ---- The sum of a ladder -------------------------------------------------

  ghost function Total(m: Ladder): int {
    if m == map[] then 0 else
      var k :| k in m;
      m[k] + Total(m - {k})
  }

  lemma {:induction false} TotalRemove(m: Ladder, k: string)
    requires k in m
    ensures Total(m) == m[k] + Total(m - {k})
    decreases |m|
  {
    var j :| j in m && Total(m) == m[j] + Total(m - {j});
    if j != k {
      var a, b := m - {j}, m - {k};
      assert |a| < |m| by { assert a.Keys < m.Keys; KeysShrink(m, j); }
      assert |b| < |m| by { KeysShrink(m, k); }
      TotalRemove(a, k);
      TotalRemove(b, j);
      assert a - {k} == b - {j};
    }
  }

  lemma KeysShrink(m: Ladder, k: string)
    requires k in m
    ensures |m - {k}| == |m| - 1
  {
    assert (m - {k}).Keys == m.Keys - {k};
  }

  lemma TotalUpdate(m: Ladder, k: string, v: int)
    ensures Total(m[k := v]) == Total(m) + v - (if k in m then m[k] else 0)
    ensures |m[k := v]| == |m| + (if k in m then 0 else 1)
  {
    hide Total;
    var m' := m[k := v];
    TotalRemove(m', k);
    KeysShrink(m', k);
    UpdateRemove(m, k, v);
    if k in m {
      TotalRemove(m, k);
      KeysShrink(m, k);
    }
  }

  lemma UpdateRemove(m: Ladder, k: string, v: int)
    ensures m[k := v] - {k} == m - {k}
    ensures k !in m ==> m - {k} == m
  {}

  // ---- Writing a field of deltas -------------------------------------------

  /** The first n seats' ratings written in order: a later seat of the same agent overwrites. */
  function WriteAll(m: Ladder, agents: seq<string>, bases: seq<int>, deltas: seq<int>, n: nat): Ladder
    requires n <= |agents| && n <= |bases| && n <= |deltas|
  {
    if n == 0 then m
    else WriteAll(m, agents, bases, deltas, n - 1)[agents[n - 1] := SaturatingAdd(bases[n - 1], deltas[n - 1])]
  }

  /** What one seat's write adds to its base rating. */
  function Landed(base: int, delta: int): int { SaturatingAdd(base, delta) - base }

  /** What the latest earlier seat of this agent had landed, which a new write discards. */
  function Overwritten(agents: seq<string>, bases: seq<int>, deltas: seq<int>, n: nat, agent: string): int
    requires n <= |agents| && n <= |bases| && n <= |deltas|
  {
    if n == 0 then 0
    else if agents[n - 1] == agent then Landed(bases[n - 1], deltas[n - 1])
    else Overwritten(agents, bases, deltas, n - 1, agent)
  }

  /** The net change of the ladder's total, computable before the call. */
  function Drift(agents: seq<string>, bases: seq<int>, deltas: seq<int>, n: nat): int
    requires n <= |agents| && n <= |bases| && n <= |deltas|
  {
    if n == 0 then 0
    else Drift(agents, bases, deltas, n - 1) + Landed(bases[n - 1], deltas[n - 1])
         - Overwritten(agents, bases, deltas, n - 1, agents[n - 1])
  }

  /** The bases are the agents' current ratings. */
  ghost predicate Sourced(m: Ladder, agents: seq<string>, bases: seq<int>) {
    |agents| == |bases| && forall i :: 0 <= i < |agents| ==> agents[i] in m && m[agents[i]] == bases[i]
  }

  lemma {:induction false} WrittenRating(m: Ladder, agents: seq<string>, bases: seq<int>, deltas: seq<int>, n: nat,
      agent: string)
    requires Sourced(m, agents, bases) && n <= |agents| && n <= |deltas| && agent in m
    ensures var m' := WriteAll(m, agents, bases, deltas, n);
      agent in m' && m'[agent] == m[agent] + Overwritten(agents, bases, deltas, n, agent)
  {
    if n != 0 { WrittenRating(m, agents, bases, deltas, n - 1, agent); }
  }

  /** The exact effect of a settlement on the ladder, with no hypothesis on agents or range. */
  lemma {:induction false} DriftExact(m: Ladder, agents: seq<string>, bases: seq<int>, deltas: seq<int>, n: nat)
    requires Sourced(m, agents, bases) && n <= |agents| && n <= |deltas|
    ensures var m' := WriteAll(m, agents, bases, deltas, n);
      Total(m') == Total(m) + Drift(agents, bases, deltas, n) && m'.Keys == m.Keys
  {
    hide Total, SaturatingAdd, Overwritten;
    if n != 0 {
      DriftExact(m, agents, bases, deltas, n - 1);
      var before := WriteAll(m, agents, bases, deltas, n - 1);
      WrittenRating(m, agents, bases, deltas, n - 1, agents[n - 1]);
      TotalUpdate(before, agents[n - 1], SaturatingAdd(bases[n - 1], deltas[n - 1]));
    }
  }

  predicate DistinctIds(agents: seq<string>) { forall i, j :: 0 <= i < j < |agents| ==> agents[i] != agents[j] }

  predicate Unsaturated(bases: seq<int>, deltas: seq<int>) {
    |bases| == |deltas| && forall i :: 0 <= i < |bases| ==> I32_MIN <= bases[i] + deltas[i] <= I32_MAX
  }

  /** A later seat, below n, of the agent in seat i. */
  predicate Overruled(agents: seq<string>, i: nat, n: nat)
    requires i < n <= |agents|
  {
    exists j :: i < j < n && agents[j] == agents[i]
  }

  /** The deltas, of the first k seats, that a later seat of the same agent below n overwrites. */
  function Discarded(agents: seq<string>, deltas: seq<int>, k: nat, n: nat): int
    requires k <= n <= |agents| && n <= |deltas|
  {
    if k == 0 then 0
    else Discarded(agents, deltas, k - 1, n) + (if Overruled(agents, k - 1, n) then deltas[k - 1] else 0)
  }

  ghost predicate SeatedFrom(agents: seq<string>, k: nat, n: nat, agent: string)
    requires n <= |agents|
  {
    exists j :: k <= j < n && agents[j] == agent
  }

  /** One more seat overrules the latest earlier seat of its agent, and no other. */
  lemma OverruledBy(agents: seq<string>, i: nat, n: nat)
    requires i < n < |agents|
    ensures Overruled(agents, i, n + 1)
      <==> Overruled(agents, i, n) || (agents[i] == agents[n] && !SeatedFrom(agents, i + 1, n, agents[n]))
    ensures SeatedFrom(agents, i, n, agents[n]) <==> agents[i] == agents[n] || SeatedFrom(agents, i + 1, n, agents[n])
    ensures agents[i] == agents[n] ==> (Overruled(agents, i, n) <==> SeatedFrom(agents, i + 1, n, agents[n]))
  {
    if Overruled(agents, i, n) {
      var j :| i < j < n && agents[j] == agents[i];
      assert i < j < n + 1;
    }
    if agents[i] == agents[n] { assert i < n < n + 1; }
  }

  lemma {:induction false} DiscardedGrows(agents: seq<string>, bases: seq<int>, deltas: seq<int>, k: nat, n: nat)
    requires Unsaturated(bases, deltas) && |agents| == |bases| && k <= n < |agents|
    ensures Discarded(agents, deltas, k, n + 1) - Discarded(agents, deltas, k, n)
      == if SeatedFrom(agents, k, n, agents[n]) then 0 else Overwritten(agents, bases, deltas, k, agents[n])
  {
    hide Overruled, SeatedFrom;
    if k != 0 {
      DiscardedGrows(agents, bases, deltas, k - 1, n);
      OverruledBy(agents, k - 1, n);
    }
  }

  lemma NoSeatAfterLast(agents: seq<string>, n: nat, agent: string)
    requires 0 < n <= |agents|
    ensures !SeatedFrom(agents, n, n, agent) && !Overruled(agents, n - 1, n)
  {}

  /** Without saturation, the drift is the sum of the deltas less those that repeated ids discard. */
  lemma {:induction false} DriftDiscards(agents: seq<string>, bases: seq<int>, deltas: seq<int>, n: nat)
    requires Unsaturated(bases, deltas) && |agents| == |bases| && n <= |agents|
    ensures Drift(agents, bases, deltas, n) == Sum(deltas, n) - Discarded(agents, deltas, n, n)
  {
    hide Overruled, SeatedFrom, Overwritten;
    if n != 0 {
      DriftDiscards(agents, bases, deltas, n - 1);
      NoSeatAfterLast(agents, n, agents[n - 1]);
      if n > 1 { NoSeatAfterLast(agents, n - 1, agents[n - 1]); }
      assert n == 1 ==> !SeatedFrom(agents, 0, 0, agents[0]) by { EmptyRange(agents, agents[0]); }
      DiscardedGrows(agents, bases, deltas, n - 1, n - 1);
    }
  }

  lemma EmptyRange(agents: seq<string>, agent: string)
    ensures !SeatedFrom(agents, 0, 0, agent)
  {}

  lemma {:induction false} FreshSeat(agents: seq<string>, bases: seq<int>, deltas: seq<int>, n: nat, agent: string)
    requires n <= |agents| && n <= |bases| && n <= |deltas| && forall i :: 0 <= i < n ==> agents[i] != agent
    ensures Overwritten(agents, bases, deltas, n, agent) == 0
  {
    if n != 0 { FreshSeat(agents, bases, deltas, n - 1, agent); }
  }

  /** With distinct ids and no saturation, the drift is the sum of the deltas. */
  lemma {:induction false} CleanDrift(agents: seq<string>, bases: seq<int>, deltas: seq<int>, n: nat)
    requires DistinctIds(agents) && Unsaturated(bases, deltas) && |agents| == |bases| && n <= |agents|
    ensures Drift(agents, bases, deltas, n) == Sum(deltas, n)
  {
    if n != 0 {
      CleanDrift(agents, bases, deltas, n - 1);
      FreshSeat(agents, bases, deltas, n - 1, agents[n - 1]);
    }
  }

  /** Each delta lands on its own seat's agent, unless a later seat is the same agent's. */
  lemma {:induction false} WritesLand(m: Ladder, agents: seq<string>, bases: seq<int>, deltas: seq<int>, n: nat, i: nat)
    requires n <= |agents| && n <= |bases| && n <= |deltas| && i < n && !Overruled(agents, i, n)
    ensures var m' := WriteAll(m, agents, bases, deltas, n);
      agents[i] in m' && m'[agents[i]] == SaturatingAdd(bases[i], deltas[i])
  {
    if i < n - 1 {
      assert agents[n - 1] != agents[i];
      WritesLand(m, agents, bases, deltas, n - 1, i);
    }
  }

  lemma {:induction false} OthersKept(m: Ladder, agents: seq<string>, bases: seq<int>, deltas: seq<int>, n: nat,
      agent: string)
    requires n <= |agents| && n <= |bases| && n <= |deltas| && agent !in agents
    ensures var m' := WriteAll(m, agents, bases, deltas, n);
      (agent in m' <==> agent in m) && (agent in m ==> m'[agent] == m[agent])
  {
    if n != 0 { OthersKept(m, agents, bases, deltas, n - 1, agent); }
  }

  // ---- The two routes ------------------------------------------------------

  /** Exactly one outcome per registered seat. */
  predicate SeatsPermute(outcomes: seq<SeatOutcome>, n: nat) {
    && |outcomes| == n && (forall i :: 0 <= i < n ==> outcomes[i].seat < n)
    && (forall i, j :: 0 <= i < j < n ==> outcomes[i].seat != outcomes[j].seat)
  }

  /** The agents in the result's order. */
  function AgentsBySeat(agents: seq<string>, outcomes: seq<SeatOutcome>): (r: seq<string>)
    requires forall i :: 0 <= i < |outcomes| ==> outcomes[i].seat < |agents|
    ensures |r| == |outcomes|
  {
    seq(|outcomes|, i requires 0 <= i < |outcomes| => agents[outcomes[i].seat])
  }

  function RatingsOf(p: FormParams, m: Ladder, agents: seq<string>): (r: seq<int>)
    ensures |r| == |agents|
  {
    seq(|agents|, i requires 0 <= i < |agents| => RatingOf(p, m, agents[i]))
  }

  /** The registration a field result would settle. */
  predicate FieldFits(book: Book, result: MatchResult) {
    result.matchId in book.pending && SeatsPermute(result.outcomes, |book.pending[result.matchId].agents|)
  }

  function FieldAgents(book: Book, result: MatchResult): (r: seq<string>)
    requires FieldFits(book, result)
    ensures |r| == |result.outcomes|
  {
    AgentsBySeat(book.pending[result.matchId].agents, result.outcomes)
  }

  function ZipLength(a: nat, b: nat): nat { if a < b then a else b }

  /** `apply_ranked_field_result`. */
  function SettleField(p: FormParams, core: Core, book: Book, result: MatchResult, k: int): (Book, Option<seq<int>>) {
    if !FieldFits(book, result) then (book, None) else
      var agents := FieldAgents(book, result);
      var bases := RatingsOf(p, book.ratings, agents);
      match core.field(result, bases, k)
      case None => (book, None)
      case Some(deltas) =>
        (Book(WriteAll(book.ratings, agents, bases, deltas, ZipLength(|deltas|, |agents|)),
              book.pending - {result.matchId}), Some(deltas))
  }

  /** `apply_ranked_result`. */
  function SettleDuel(p: FormParams, core: Core, book: Book, result: MatchResult, k: int): (Book, Option<(int, int)>) {
    if |result.outcomes| != 2 || result.outcomes[0].seat == result.outcomes[1].seat then (book, None)
    else if result.matchId !in book.pending || |book.pending[result.matchId].agents| != 2 then (book, None)
    else if result.outcomes[0].seat >= 2 || result.outcomes[1].seat >= 2 then (book, None)
    else
      var agents := book.pending[result.matchId].agents;
      var a, b := agents[result.outcomes[0].seat], agents[result.outcomes[1].seat];
      var ra, rb := RatingOf(p, book.ratings, a), RatingOf(p, book.ratings, b);
      match core.duel(result, ra, rb, k)
      case None => (book, None)
      case Some(d) =>
        (Book(book.ratings[a := SaturatingAdd(ra, d.0)][b := SaturatingAdd(rb, d.1)],
              book.pending - {result.matchId}), Some(d))
  }

  // ---- Exactly when a result settles ---------------------------------------

  /**
   A field result settles if and only if its match is pending, its outcomes name every registered
   seat exactly once, and the core yields deltas for the rostered agents' ratings in outcome order.
   */
  lemma FieldSettlesExactly(p: FormParams, core: Core, book: Book, result: MatchResult, k: int, bases: seq<int>)
    requires result.matchId in book.pending
    requires |bases| == |result.outcomes|
    requires var agents := book.pending[result.matchId].agents;
      forall i :: 0 <= i < |bases| && result.outcomes[i].seat < |agents| ==>
        bases[i] == RatingOf(p, book.ratings, agents[result.outcomes[i].seat])
    ensures SettleField(p, core, book, result, k).1.Some?
      <==> SeatsPermute(result.outcomes, |book.pending[result.matchId].agents|) && core.field(result, bases, k).Some?
    ensures SettleField(p, core, book, result, k).1.Some? ==>
      SettleField(p, core, book, result, k).1 == core.field(result, bases, k)
  {
    if FieldFits(book, result) {
      assert bases == RatingsOf(p, book.ratings, FieldAgents(book, result));
    }
  }

  /** A result of an unregistered match never settles. */
  lemma UnregisteredRefused(p: FormParams, core: Core, book: Book, result: MatchResult, k: int)
    requires result.matchId !in book.pending
    ensures SettleField(p, core, book, result, k) == (book, None)
    ensures SettleDuel(p, core, book, result, k) == (book, None)
  {}

  /** The agent a registered seat belongs to. */
  function AgentAt(book: Book, id: MatchId, seat: nat): string
    requires id in book.pending && seat < |book.pending[id].agents|
  {
    book.pending[id].agents[seat]
  }

  /** Two outcomes naming the two seats of a two-seat registration, either way round. */
  predicate NamesBothSeats(book: Book, result: MatchResult) {
    && result.matchId in book.pending && |book.pending[result.matchId].agents| == 2 && |result.outcomes| == 2
    && result.outcomes[0].seat + result.outcomes[1].seat == 1
  }

  /**
   A one-against-one result settles if and only if it names the two seats of a pending two-seat match
   and the core yields deltas; then each delta lands on the agent of its outcome's seat.
   */
  lemma DuelSettlesExactly(p: FormParams, core: Core, book: Book, result: MatchResult, k: int)
    ensures NamesBothSeats(book, result) ==>
      var a := AgentAt(book, result.matchId, result.outcomes[0].seat);
      var b := AgentAt(book, result.matchId, result.outcomes[1].seat);
      var ra, rb := RatingOf(p, book.ratings, a), RatingOf(p, book.ratings, b);
      && SettleDuel(p, core, book, result, k).1 == core.duel(result, ra, rb, k)
      && (core.duel(result, ra, rb, k).Some? ==>
          var m := SettleDuel(p, core, book, result, k).0.ratings;
          && b in m && m[b] == SaturatingAdd(rb, core.duel(result, ra, rb, k).value.1)
          && (a != b ==> a in m && m[a] == SaturatingAdd(ra, core.duel(result, ra, rb, k).value.0))
          && forall x :: x != a && x != b ==> (x in m <==> x in book.ratings) && (x in m ==> m[x] == book.ratings[x]))
    ensures !NamesBothSeats(book, result) ==> SettleDuel(p, core, book, result, k).1.None?
  {}

  /** The two deltas of a duel read as a field of two. */
  ghost predicate CoresAgree(core: Core) {
    forall r: MatchResult, a, b, k {:trigger core.duel(r, a, b, k)} :: |r.outcomes| == 2 ==>
      core.field(r, [a, b], k) ==
        match core.duel(r, a, b, k) case None => None case Some(d) => Some([d.0, d.1])
  }

  /** On a two-seat registration both routes commit or both refuse, with the same book. */
  lemma RoutesAgree(p: FormParams, core: Core, book: Book, result: MatchResult, k: int)
    requires CoresAgree(core)
    requires result.matchId in book.pending && |book.pending[result.matchId].agents| == 2
    ensures SettleDuel(p, core, book, result, k).0 == SettleField(p, core, book, result, k).0
    ensures SettleDuel(p, core, book, result, k).1.Some? == SettleField(p, core, book, result, k).1.Some?
  {
    if FieldFits(book, result) {
      var agents := FieldAgents(book, result);
      var bases := RatingsOf(p, book.ratings, agents);
      assert bases == [bases[0], bases[1]];
      match core.duel(result, bases[0], bases[1], k) {
        case None =>
        case Some(d) =>
          assert core.field(result, bases, k) == Some([d.0, d.1]);
          WriteTwo(book.ratings, agents, bases, [d.0, d.1]);
      }
    }
  }

  lemma WriteTwo(m: Ladder, agents: seq<string>, bases: seq<int>, deltas: seq<int>)
    requires |agents| == |bases| == |deltas| == 2
    ensures WriteAll(m, agents, bases, deltas, 2)
      == m[agents[0] := SaturatingAdd(bases[0], deltas[0])][agents[1] := SaturatingAdd(bases[1], deltas[1])]
  {
    assert WriteAll(m, agents, bases, deltas, 1) == m[agents[0] := SaturatingAdd(bases[0], deltas[0])];
  }

  // ---- Conservation, one settlement at a time ------------------------------

  /** Every agent of a registered match is in the rating book. */
  ghost predicate Booked(book: Book) {
    forall id, i :: id in book.pending && 0 <= i < |book.pending[id].agents| ==>
      book.pending[id].agents[i] in book.ratings
  }

  /** The roster holds distinct ids and no rating of it would leave the i32 range. */
  ghost predicate CleanField(p: FormParams, core: Core, book: Book, result: MatchResult, k: int) {
    FieldFits(book, result) ==>
      var agents := FieldAgents(book, result);
      var bases := RatingsOf(p, book.ratings, agents);
      core.field(result, bases, k).Some? ==>
        DistinctIds(agents) && Unsaturated(bases, core.field(result, bases, k).value)
  }

  /**
   A field result leaves the book alone, or consumes one registration and moves its roster only,
   by the drift, whatever the core's deltas. With zero-sum deltas and ratings in range the total is
   kept if and only if what later seats of the same agents discard sums to nothing.
   */
  lemma FieldSettles(p: FormParams, core: Core, book: Book, result: MatchResult, k: int)
    requires Booked(book)
    ensures var (after, applied) := SettleField(p, core, book, result, k);
      && (applied.None? ==> after == book)
      && (applied.Some? ==>
          && FieldFits(book, result) && after.pending == book.pending - {result.matchId}
          && after.ratings.Keys == book.ratings.Keys
          && var agents := FieldAgents(book, result);
             var bases := RatingsOf(p, book.ratings, agents);
             Total(after.ratings) == Total(book.ratings)
               + Drift(agents, bases, applied.value, ZipLength(|applied.value|, |agents|)))
      && Booked(after)
  {
    if SettleField(p, core, book, result, k).1.Some? {
      var agents := FieldAgents(book, result);
      var bases := RatingsOf(p, book.ratings, agents);
      var deltas := SettleField(p, core, book, result, k).1.value;
      DriftExact(book.ratings, agents, bases, deltas, ZipLength(|deltas|, |agents|));
    }
  }

  /** Exactly when a committed field result conserves the ladder's total. */
  lemma FieldConserves(p: FormParams, core: Core, book: Book, result: MatchResult, k: int)
    requires Booked(book) && ZeroSum(core) && SettleField(p, core, book, result, k).1.Some?
    requires FieldFits(book, result)
    requires var agents := FieldAgents(book, result);
      Unsaturated(RatingsOf(p, book.ratings, agents), SettleField(p, core, book, result, k).1.value)
    ensures var (after, applied) := SettleField(p, core, book, result, k);
      var agents := FieldAgents(book, result);
      && |applied.value| == |agents|
      && (Total(after.ratings) == Total(book.ratings) <==> Discarded(agents, applied.value, |agents|, |agents|) == 0)
  {
    FieldSettles(p, core, book, result, k);
    var agents := FieldAgents(book, result);
    var bases := RatingsOf(p, book.ratings, agents);
    DriftDiscards(agents, bases, SettleField(p, core, book, result, k).1.value, |agents|);
  }

  /** On a committed field result each delta lands on the agent of its seat, a later seat of one agent winning. */
  lemma EachDeltaLands(p: FormParams, core: Core, book: Book, result: MatchResult, k: int, i: nat, agent: string)
    requires ZeroSum(core) && SettleField(p, core, book, result, k).1.Some?
    requires FieldFits(book, result) && i < |result.outcomes|
    requires !Overruled(FieldAgents(book, result), i, |result.outcomes|)
    ensures var (after, applied) := SettleField(p, core, book, result, k);
      var seated := book.pending[result.matchId].agents[result.outcomes[i].seat];
      && |applied.value| == |result.outcomes| && seated in after.ratings
      && after.ratings[seated] == SaturatingAdd(RatingOf(p, book.ratings, seated), applied.value[i])
    ensures agent !in FieldAgents(book, result) ==>
      var m := SettleField(p, core, book, result, k).0.ratings;
      (agent in m <==> agent in book.ratings) && (agent in m ==> m[agent] == book.ratings[agent])
  {
    var agents := FieldAgents(book, result);
    var bases := RatingsOf(p, book.ratings, agents);
    var deltas := SettleField(p, core, book, result, k).1.value;
    WritesLand(book.ratings, agents, bases, deltas, |agents|, i);
    if agent !in agents { OthersKept(book.ratings, agents, bases, deltas, |agents|, agent); }
  }

  /**
   The same for the one-against-one route. With zero-sum deltas and in-range ratings, its total is
   kept if and only if the two seats are different agents or nothing moves.
   */
  lemma DuelSettles(p: FormParams, core: Core, book: Book, result: MatchResult, k: int)
    requires Booked(book)
    ensures var (after, applied) := SettleDuel(p, core, book, result, k);
      && (applied.None? ==> after == book)
      && (applied.Some? ==>
          && FieldFits(book, result) && after.pending == book.pending - {result.matchId}
          && after.ratings.Keys == book.ratings.Keys
          && var agents := FieldAgents(book, result);
             var bases := RatingsOf(p, book.ratings, agents);
             var deltas := [applied.value.0, applied.value.1];
             && Total(after.ratings) == Total(book.ratings) + Drift(agents, bases, deltas, 2)
             && (ZeroSum(core) && Unsaturated(bases, deltas) ==>
                 (Total(after.ratings) == Total(book.ratings) <==> agents[0] != agents[1] || applied.value == (0, 0))))
      && Booked(after)
  {
    if SettleDuel(p, core, book, result, k).1.Some? {
      var d := SettleDuel(p, core, book, result, k).1.value;
      var agents := FieldAgents(book, result);
      var bases := RatingsOf(p, book.ratings, agents);
      WriteTwo(book.ratings, agents, bases, [d.0, d.1]);
      DriftExact(book.ratings, agents, bases, [d.0, d.1], 2);
      DriftTwo(agents, bases, [d.0, d.1]);
    }
  }

  lemma DriftTwo(agents: seq<string>, bases: seq<int>, deltas: seq<int>)
    requires |agents| == |bases| == |deltas| == 2
    ensures Drift(agents, bases, deltas, 2) == Landed(bases[1], deltas[1])
      + (if agents[0] == agents[1] then 0 else Landed(bases[0], deltas[0]))
  {
    assert Drift(agents, bases, deltas, 1) == Landed(bases[0], deltas[0]);
    assert Overwritten(agents, bases, deltas, 0, agents[1]) == 0;
  }
}
