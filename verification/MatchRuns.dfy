/**
 Whole runs of the matchmaker: any interleaving of joins, registrations of formed ranked
 matches, and settlements by either route. A match id is fresh when it is minted.
 */
module MatchRuns {
  import opened Common
  import opened Selection
  import opened Formation
  import opened Settlement
  import opened Matchmaking

  datatype Match = Match(mode: Mode, roster: seq<Seated>)

  /**
   The matchmaker and what has happened to it: every admitted join in order, the ranked
   rosters formed but not yet registered, every match formed, and the ids registered,
   settled and evicted so far.
   */
  datatype Sys = Sys(
    st: State, joined: seq<Seated>, forming: seq<seq<Seated>>, formed: seq<Match>,
    registered: seq<MatchId>, settled: seq<MatchId>, evicted: seq<MatchId>)

  datatype Event =
    | Join(mode: Mode, req: JoinRequest)
    | Registration(index: nat, id: MatchId)
    | Duel(result: MatchResult, k: int)
    | Field(result: MatchResult, k: int)

  function Start(ratings: Ladder): Sys { Sys(Initial(ratings), [], [], [], [], [], []) }

  function Ids(roster: seq<Seated>): (ids: seq<string>)
    ensures |ids| == |roster|
  {
    seq(|roster|, i requires 0 <= i < |roster| => roster[i].agentId)
  }

  function Ticket(sys: Sys, req: JoinRequest): Seated { Seated(|sys.joined|, req.agentId, req.kind) }

  ghost predicate Admitted(p: Params, ev: Event) { ev.Join? && Admit(p, ev.mode, ev.req) == None }

  ghost function StepJoin(p: Params, sys: Sys, mode: Mode, req: JoinRequest): Sys {
    var x := Ticket(sys, req);
    var (st, roster) := JoinLocked(p, sys.st, mode, x);
    var next := sys.(st := st, joined := sys.joined + [x]);
    if roster.None? then next
    else next.(formed := sys.formed + [Match(mode, roster.value)],
               forming := if mode.AgentMode? then sys.forming + [roster.value] else sys.forming)
  }

  ghost predicate CanRegister(sys: Sys, index: nat, id: MatchId) { index < |sys.forming| && id !in sys.registered }

  ghost function StepRegister(p: Params, sys: Sys, index: nat, id: MatchId): Sys
    requires CanRegister(sys, index, id)
  {
    var agents := Ids(sys.forming[index]);
    var reg := sys.st.book.pending[id := Pending(sys.st.nextSeq, agents)];
    sys.(st := Register(p, sys.st, agents, id),
         forming := sys.forming[..index] + sys.forming[index + 1..],
         registered := sys.registered + [id],
         evicted := if OverCap(p, reg) then sys.evicted + [Oldest(reg)] else sys.evicted)
  }

  ghost function StepSettle(sys: Sys, after: State, id: MatchId, applied: bool): Sys {
    if applied then sys.(st := after, settled := sys.settled + [id]) else sys.(st := after)
  }

  ghost function Step(p: Params, sys: Sys, ev: Event): Sys {
    match ev
    case Join(mode, req) => if Admit(p, mode, req).None? then StepJoin(p, sys, mode, req) else sys
    case Registration(index, id) => if CanRegister(sys, index, id) then StepRegister(p, sys, index, id) else sys
    case Duel(result, k) =>
      StepSettle(sys, ApplyDuel(p, sys.st, result, k), result.matchId,
        SettleDuel(p.form, p.core, sys.st.book, result, k).1.Some?)
    case Field(result, k) =>
      StepSettle(sys, ApplyField(p, sys.st, result, k), result.matchId,
        SettleField(p.form, p.core, sys.st.book, result, k).1.Some?)
  }

  ghost function Run(p: Params, sys: Sys, evs: seq<Event>): Sys
    decreases |evs|
  {
    if evs == [] then sys else Run(p, Step(p, sys, evs[0]), evs[1..])
  }

  // ---- Everyone ranked is in the book --------------------------------------

  ghost predicate InBook(m: Ladder, roster: seq<Seated>) { forall i :: 0 <= i < |roster| ==> roster[i].agentId in m }

  ghost predicate BookInv(sys: Sys) {
    && Booked(sys.st.book) && InBook(sys.st.book.ratings, sys.st.agent)
    && forall i :: 0 <= i < |sys.forming| ==> InBook(sys.st.book.ratings, sys.forming[i])
  }

  lemma InBookParts(p: Params, m: Ladder, mode: Mode, q: seq<Seated>)
    requires p.form.seats >= 2 && InBook(m, q)
    ensures var (roster, left) := Formed(p.form, mode, m, q);
      InBook(m, left) && (roster.Some? ==> InBook(m, roster.value))
  {
    FormedParts(p.form, mode, m, q);
    var (roster, left) := Formed(p.form, mode, m, q);
    if roster.Some? {
      forall i | 0 <= i < |left| ensures left[i].agentId in m { assert left[i] in multiset(q); }
      forall i | 0 <= i < |roster.value| ensures roster.value[i].agentId in m { assert roster.value[i] in multiset(q); }
    }
  }

  lemma InBookLonger(m: Ladder, m': Ladder, roster: seq<Seated>)
    requires InBook(m, roster) && m.Keys <= m'.Keys
    ensures InBook(m', roster)
  {}

  lemma BookJoin(p: Params, sys: Sys, mode: Mode, req: JoinRequest)
    requires p.form.seats >= 2 && BookInv(sys)
    ensures BookInv(StepJoin(p, sys, mode, req))
    ensures sys.st.book.ratings.Keys <= StepJoin(p, sys, mode, req).st.book.ratings.Keys
  {
    var m := sys.st.book.ratings;
    var m' := Seeded(p, mode, m, req.agentId);
    InBookLonger(m, m', sys.st.agent);
    forall i | 0 <= i < |sys.forming| ensures InBook(m', sys.forming[i]) { InBookLonger(m, m', sys.forming[i]); }
    if mode.AgentMode? { InBookParts(p, m', mode, sys.st.agent + [Ticket(sys, req)]); }
  }

  lemma BookRegister(p: Params, sys: Sys, index: nat, id: MatchId)
    requires BookInv(sys) && CanRegister(sys, index, id)
    ensures BookInv(StepRegister(p, sys, index, id))
    ensures StepRegister(p, sys, index, id).st.book.ratings == sys.st.book.ratings
  {
    assert InBook(sys.st.book.ratings, sys.forming[index]);
  }

  /** A settlement keeps the book's agents, so everyone in it stays in it. */
  lemma BookSettled(sys: Sys, next: Sys)
    requires BookInv(sys) && Booked(next.st.book) && next.forming == sys.forming && next.st.agent == sys.st.agent
    requires next.st.book.ratings.Keys == sys.st.book.ratings.Keys
    ensures BookInv(next)
  {
    forall i | 0 <= i < |sys.forming| ensures InBook(next.st.book.ratings, sys.forming[i]) {
      InBookLonger(sys.st.book.ratings, next.st.book.ratings, sys.forming[i]);
    }
  }

  lemma BookStep(p: Params, sys: Sys, ev: Event)
    requires p.form.seats >= 2 && BookInv(sys)
    ensures BookInv(Step(p, sys, ev))
    ensures sys.st.book.ratings.Keys <= Step(p, sys, ev).st.book.ratings.Keys
  {
    hide StepJoin, StepRegister, SettleDuel, SettleField;
    match ev
    case Join(mode, req) => BookJoin(p, sys, mode, req);
    case Registration(index, id) => if CanRegister(sys, index, id) { BookRegister(p, sys, index, id); }
    case Duel(result, k) =>
      DuelSettles(p.form, p.core, sys.st.book, result, k);
      BookSettled(sys, Step(p, sys, ev));
    case Field(result, k) =>
      FieldSettles(p.form, p.core, sys.st.book, result, k);
      BookSettled(sys, Step(p, sys, ev));
  }

  // ---- Conservation of the ladder ------------------------------------------

  /** What a settlement adds to the ladder's total: a function of its roster, ratings and deltas. */
  ghost function EventDrift(p: Params, sys: Sys, ev: Event): int {
    var book := sys.st.book;
    match ev
    case Duel(result, k) =>
      var applied := SettleDuel(p.form, p.core, book, result, k).1;
      if applied.None? then 0 else
        DuelFits(p, book, result, k);
        var agents := FieldAgents(book, result);
        Drift(agents, RatingsOf(p.form, book.ratings, agents), [applied.value.0, applied.value.1], 2)
    case Field(result, k) =>
      var applied := SettleField(p.form, p.core, book, result, k).1;
      if applied.None? then 0 else
        var agents := FieldAgents(book, result);
        Drift(agents, RatingsOf(p.form, book.ratings, agents), applied.value, ZipLength(|applied.value|, |agents|))
    case _ => 0
  }

  lemma DuelFits(p: Params, book: Book, result: MatchResult, k: int)
    requires SettleDuel(p.form, p.core, book, result, k).1.Some?
    ensures FieldFits(book, result) && |result.outcomes| == 2
  {}

  ghost function RunDrift(p: Params, sys: Sys, evs: seq<Event>): int
    decreases |evs|
  {
    if evs == [] then 0 else EventDrift(p, sys, evs[0]) + RunDrift(p, Step(p, sys, evs[0]), evs[1..])
  }

  /** The ladder's total beyond the seed rating of each of its agents. */
  ghost function Surplus(p: Params, m: Ladder): int { Total(m) - p.form.defaultRating * |m| }

  lemma SeedSurplus(p: Params, mode: Mode, m: Ladder, id: string)
    ensures Surplus(p, Seeded(p, mode, m, id)) == Surplus(p, m)
  {
    if mode.AgentMode? && id !in m {
      TotalUpdate(m, id, p.form.defaultRating);
      Times(p.form.defaultRating, |m|, 1);
    }
  }

  lemma Times(d: int, m: nat, n: nat)
    ensures d * (m + n) == d * m + d * n
  {}

  lemma SameKeysSize(m: Ladder, m': Ladder)
    requires m.Keys == m'.Keys
    ensures |m| == |m'|
  {}

  lemma SurplusStep(p: Params, sys: Sys, ev: Event)
    requires p.form.seats >= 2 && BookInv(sys)
    ensures Surplus(p, Step(p, sys, ev).st.book.ratings) == Surplus(p, sys.st.book.ratings) + EventDrift(p, sys, ev)
  {
    match ev
    case Join(mode, req) => SeedSurplus(p, mode, sys.st.book.ratings, req.agentId);
    case Registration(index, id) =>
    case Duel(result, k) =>
      DuelSettles(p.form, p.core, sys.st.book, result, k);
      SameKeysSize(sys.st.book.ratings, ApplyDuel(p, sys.st, result, k).book.ratings);
    case Field(result, k) =>
      FieldSettles(p.form, p.core, sys.st.book, result, k);
      SameKeysSize(sys.st.book.ratings, ApplyField(p, sys.st, result, k).book.ratings);
  }

  lemma {:induction false} SurplusRun(p: Params, sys: Sys, evs: seq<Event>)
    requires p.form.seats >= 2 && BookInv(sys)
    ensures Surplus(p, Run(p, sys, evs).st.book.ratings) == Surplus(p, sys.st.book.ratings) + RunDrift(p, sys, evs)
    ensures sys.st.book.ratings.Keys <= Run(p, sys, evs).st.book.ratings.Keys
    decreases |evs|
  {
    hide Surplus, EventDrift, BookInv;
    if evs != [] {
      BookStep(p, sys, evs[0]);
      SurplusStep(p, sys, evs[0]);
      SurplusRun(p, Step(p, sys, evs[0]), evs[1..]);
    }
  }

  lemma KeysSplit(m: Ladder, m': Ladder)
    requires m.Keys <= m'.Keys
    ensures |m'| == |m| + |m'.Keys - m.Keys|
  {
    assert m'.Keys == m.Keys + (m'.Keys - m.Keys);
  }

  lemma FromSurplus(p: Params, m: Ladder, m': Ladder, drift: int)
    requires m.Keys <= m'.Keys && Surplus(p, m') == Surplus(p, m) + drift
    ensures Total(m') == Total(m) + p.form.defaultRating * |m'.Keys - m.Keys| + drift
  {
    KeysSplit(m, m');
    Times(p.form.defaultRating, |m|, |m'.Keys - m.Keys|);
  }

  /**
   The ladder's total, exactly, over every interleaving and with no hypothesis on ids, range or deltas:
   the starting sum, plus the seed rating of each newly seeded agent, plus the drift of each
   committed settlement. The total is conserved if and only if those drifts cancel.
   */
  lemma LadderExact(p: Params, ratings: Ladder, evs: seq<Event>)
    requires p.form.seats >= 2
    ensures var after := Run(p, Start(ratings), evs).st.book.ratings;
      && ratings.Keys <= after.Keys
      && Total(after) == Total(ratings) + p.form.defaultRating * |after.Keys - ratings.Keys|
           + RunDrift(p, Start(ratings), evs)
  {
    hide Surplus, RunDrift, Run, Step;
    SurplusRun(p, Start(ratings), evs);
    FromSurplus(p, ratings, Run(p, Start(ratings), evs).st.book.ratings, RunDrift(p, Start(ratings), evs));
  }

  // ---- When nothing drifts -------------------------------------------------

  /** Distinct ids on the roster of a duel, and ratings that stay within i32. */
  ghost predicate CleanDuel(p: Params, book: Book, result: MatchResult, k: int) {
    var applied := SettleDuel(p.form, p.core, book, result, k).1;
    applied.Some? && FieldFits(book, result) ==>
      var agents := FieldAgents(book, result);
      agents[0] != agents[1] && Unsaturated(RatingsOf(p.form, book.ratings, agents), [applied.value.0, applied.value.1])
  }

  ghost predicate Clean(p: Params, sys: Sys, ev: Event) {
    match ev
    case Duel(result, k) => CleanDuel(p, sys.st.book, result, k)
    case Field(result, k) => CleanField(p.form, p.core, sys.st.book, result, k)
    case _ => true
  }

  ghost predicate CleanRun(p: Params, sys: Sys, evs: seq<Event>)
    decreases |evs|
  {
    evs == [] || (Clean(p, sys, evs[0]) && CleanRun(p, Step(p, sys, evs[0]), evs[1..]))
  }

  lemma CleanEvent(p: Params, sys: Sys, ev: Event)
    requires ZeroSum(p.core) && Clean(p, sys, ev)
    ensures EventDrift(p, sys, ev) == 0
  {
    var book := sys.st.book;
    match ev
    case Duel(result, k) =>
      var applied := SettleDuel(p.form, p.core, book, result, k).1;
      if applied.Some? {
        DuelFits(p, book, result, k);
        var agents := FieldAgents(book, result);
        DriftTwo(agents, RatingsOf(p.form, book.ratings, agents), [applied.value.0, applied.value.1]);
      }
    case Field(result, k) =>
      var applied := SettleField(p.form, p.core, book, result, k).1;
      if applied.Some? {
        var agents := FieldAgents(book, result);
        CleanDrift(agents, RatingsOf(p.form, book.ratings, agents), applied.value, |agents|);
      }
    case _ =>
  }

  lemma {:induction false} CleanRunDrift(p: Params, sys: Sys, evs: seq<Event>)
    requires ZeroSum(p.core) && CleanRun(p, sys, evs)
    ensures RunDrift(p, sys, evs) == 0
    decreases |evs|
  {
    hide EventDrift, Clean, Step;
    if evs != [] {
      CleanEvent(p, sys, evs[0]);
      CleanRunDrift(p, Step(p, sys, evs[0]), evs[1..]);
    }
  }

  /**
   Ladder conservation. Over every interleaving, from an empty or a restored ladder, when settled
   rosters hold distinct ids and no rating saturates, the sum of all ratings is the starting sum
   plus the seed rating for each newly seeded agent.
   */
  lemma LadderConserved(p: Params, ratings: Ladder, evs: seq<Event>)
    requires p.form.seats >= 2 && ZeroSum(p.core) && CleanRun(p, Start(ratings), evs)
    ensures var after := Run(p, Start(ratings), evs).st.book.ratings;
      && ratings.Keys <= after.Keys
      && Total(after) == Total(ratings) + p.form.defaultRating * |after.Keys - ratings.Keys|
  {
    hide RunDrift, Run, Step, CleanRun;
    LadderExact(p, ratings, evs);
    CleanRunDrift(p, Start(ratings), evs);
  }

  // ---- Across restarts -----------------------------------------------------

  /** The ladder after a series of runs, each resumed from a snapshot of the one before. */
  ghost function Restarts(p: Params, ratings: Ladder, runs: seq<seq<Event>>): Ladder
    decreases |runs|
  {
    if runs == [] then ratings else
      Restarts(p, Restored(Snapshot(Run(p, Start(ratings), runs[0]).st)).value.book.ratings, runs[1..])
  }

  ghost predicate CleanRestarts(p: Params, ratings: Ladder, runs: seq<seq<Event>>)
    decreases |runs|
  {
    runs == [] || (CleanRun(p, Start(ratings), runs[0])
      && CleanRestarts(p, Run(p, Start(ratings), runs[0]).st.book.ratings, runs[1..]))
  }

  lemma {:induction false} SurplusRestarts(p: Params, ratings: Ladder, runs: seq<seq<Event>>)
    requires p.form.seats >= 2 && ZeroSum(p.core) && CleanRestarts(p, ratings, runs)
    ensures Surplus(p, Restarts(p, ratings, runs)) == Surplus(p, ratings)
    ensures ratings.Keys <= Restarts(p, ratings, runs).Keys
    decreases |runs|
  {
    hide Surplus, Run, CleanRun;
    if runs != [] {
      SurplusRun(p, Start(ratings), runs[0]);
      CleanRunDrift(p, Start(ratings), runs[0]);
      SurplusRestarts(p, Run(p, Start(ratings), runs[0]).st.book.ratings, runs[1..]);
    }
  }

  /** Ladder conservation over any number of snapshots and restores. */
  lemma ConservedAcrossRestarts(p: Params, ratings: Ladder, runs: seq<seq<Event>>)
    requires p.form.seats >= 2 && ZeroSum(p.core) && CleanRestarts(p, ratings, runs)
    ensures var after := Restarts(p, ratings, runs);
      && ratings.Keys <= after.Keys
      && Total(after) == Total(ratings) + p.form.defaultRating * |after.Keys - ratings.Keys|
  {
    hide Surplus, Restarts, CleanRestarts;
    SurplusRestarts(p, ratings, runs);
    FromSurplus(p, ratings, Restarts(p, ratings, runs), 0);
  }

  // ---- An agent can be matched with itself ---------------------------------

  lemma SameIdGaps(p: FormParams, ratings: Ladder, x: Seated, y: Seated)
    requires p.seats == 2 && p.tolerance >= 0 && x.agentId == y.agentId
    ensures Picks(p, AgentMode, ratings, [x, y]).Some?
  {
    var q := [x, y];
    hide SelectRanked, RankedPicks;
    RankedWaits(p, ratings, q);
    assert Gaps(p, ratings, q) == [0, 0];
  }

  /** `join` takes the same id twice, and two joins of one agent form a two-seat match. */
  lemma SameIdPairs(p: FormParams, ratings: Ladder, x: Seated, y: Seated)
    requires p.seats == 2 && p.tolerance >= 0 && x.agentId == y.agentId
    ensures var (roster, left) := Formed(p, AgentMode, ratings, [x, y]);
      roster.Some? && left == [] && Ids(roster.value) == [x.agentId, x.agentId]
  {
    hide Picks, Chosen, Rest;
    var q := [x, y];
    SameIdGaps(p, ratings, x, y);
    FormedParts(p, AgentMode, ratings, q);
    var (roster, left) := Formed(p, AgentMode, ratings, q);
    hide Formed;
    SameIds(roster.value, left, x, y);
  }

  lemma SameIds(roster: seq<Seated>, left: seq<Seated>, x: Seated, y: Seated)
    requires |roster| == 2 && left == [] && x.agentId == y.agentId
    requires multiset(roster) + multiset(left) == multiset([x, y])
    ensures Ids(roster) == [x.agentId, x.agentId]
  {
    forall i | 0 <= i < 2 ensures roster[i].agentId == x.agentId {
      assert roster[i] in multiset([x, y]);
    }
  }

  /** A duel of an agent with itself moves the ladder's total by the second seat's delta. */
  lemma SelfMatchDrifts(p: Params, book: Book, result: MatchResult, k: int)
    requires Booked(book)
    requires SettleDuel(p.form, p.core, book, result, k).1.Some?
    requires FieldFits(book, result) && FieldAgents(book, result)[0] == FieldAgents(book, result)[1]
    ensures var (after, applied) := SettleDuel(p.form, p.core, book, result, k);
      Total(after.ratings) == Total(book.ratings)
        + Landed(RatingOf(p.form, book.ratings, FieldAgents(book, result)[1]), applied.value.1)
  {
    DuelSettles(p.form, p.core, book, result, k);
    var d := SettleDuel(p.form, p.core, book, result, k).1.value;
    var agents := FieldAgents(book, result);
    DriftTwo(agents, RatingsOf(p.form, book.ratings, agents), [d.0, d.1]);
  }

  /** One agent's two joins, the registration of its match against itself, and a duel result. */
  function SelfMatch(req: JoinRequest, result: MatchResult, k: int): seq<Event> {
    [Join(AgentMode, req), Join(AgentMode, req), Registration(0, result.matchId), Duel(result, k)]
  }

  /** The first join waits. */
  lemma SelfMatchQueued(p: Params, req: JoinRequest)
    requires p.form.seats == 2 && Admit(p, AgentMode, req) == None
    ensures var st := Initial(map[req.agentId := p.form.defaultRating]);
      var x := Seated(0, req.agentId, req.kind);
      Step(p, Start(map[]), Join(AgentMode, req)) == Sys(st.(agent := [x]), [x], [], [], [], [], [])
  {
    assert [] + [Seated(0, req.agentId, req.kind)] == [Seated(0, req.agentId, req.kind)];
  }

  /** The second forms the match. */
  lemma SelfMatchFormed(p: Params, req: JoinRequest, sys: Sys)
    requires p.form.seats == 2 && p.form.tolerance >= 0 && Admit(p, AgentMode, req) == None
    requires sys == Step(p, Start(map[]), Join(AgentMode, req))
    ensures var next := Step(p, sys, Join(AgentMode, req));
      && next.st == Initial(map[req.agentId := p.form.defaultRating]) && next.registered == []
      && |next.forming| == 1 && Ids(next.forming[0]) == [req.agentId, req.agentId]
  {
    SelfMatchQueued(p, req);
    var x, y := Seated(0, req.agentId, req.kind), Ticket(sys, req);
    assert [x] + [y] == [x, y];
    SameIdPairs(p.form, map[req.agentId := p.form.defaultRating], x, y);
    hide Formed;
  }

  lemma SelfMatchRegistered(p: Params, id: string, sys: Sys, matchId: MatchId)
    requires sys.st == Initial(map[id := p.form.defaultRating]) && sys.registered == []
    requires |sys.forming| == 1 && Ids(sys.forming[0]) == [id, id]
    ensures Step(p, sys, Registration(0, matchId)).st.book
      == Book(map[id := p.form.defaultRating], map[matchId := Pending(0, [id, id])])
  {}

  lemma SelfDuel(p: Params, id: string, book: Book, result: MatchResult, k: int, d: int)
    requires book == Book(map[id := p.form.defaultRating], map[result.matchId := Pending(0, [id, id])])
    requires |result.outcomes| == 2 && result.outcomes[0].seat == 0 && result.outcomes[1].seat == 1
    requires p.core.duel(result, p.form.defaultRating, p.form.defaultRating, k) == Some((-d, d))
    requires I32_MIN <= p.form.defaultRating + d <= I32_MAX
    ensures SettleDuel(p.form, p.core, book, result, k).0.ratings == map[id := p.form.defaultRating + d]
  {}

  /** The registration, and the duel that settles it. */
  lemma SelfMatchSettled(p: Params, id: string, sys: Sys, result: MatchResult, k: int, d: int)
    requires sys.st == Initial(map[id := p.form.defaultRating]) && sys.registered == []
    requires |sys.forming| == 1 && Ids(sys.forming[0]) == [id, id]
    requires |result.outcomes| == 2 && result.outcomes[0].seat == 0 && result.outcomes[1].seat == 1
    requires p.core.duel(result, p.form.defaultRating, p.form.defaultRating, k) == Some((-d, d))
    requires I32_MIN <= p.form.defaultRating + d <= I32_MAX
    ensures Step(p, Step(p, sys, Registration(0, result.matchId)), Duel(result, k)).st.book.ratings
      == map[id := p.form.defaultRating + d]
  {
    SelfMatchRegistered(p, id, sys, result.matchId);
    var next := Step(p, sys, Registration(0, result.matchId));
    SelfDuel(p, id, next.st.book, result, k, d);
    DuelBook(p, next, result, k);
  }

  lemma DuelBook(p: Params, sys: Sys, result: MatchResult, k: int)
    ensures Step(p, sys, Duel(result, k)).st.book == SettleDuel(p.form, p.core, sys.st.book, result, k).0
  {
    hide SettleDuel;
  }

  /**
   Conservation fails on a reachable state: from an empty ladder an agent joins twice, is matched
   with itself, and a duel with zero-sum deltas -d and d leaves it d above its seed rating.
   */
  lemma SelfMatchRun(p: Params, req: JoinRequest, result: MatchResult, k: int, d: int)
    requires p.form.seats == 2 && p.form.tolerance >= 0 && Admit(p, AgentMode, req) == None
    requires |result.outcomes| == 2 && result.outcomes[0].seat == 0 && result.outcomes[1].seat == 1
    requires p.core.duel(result, p.form.defaultRating, p.form.defaultRating, k) == Some((-d, d))
    requires I32_MIN <= p.form.defaultRating + d <= I32_MAX
    ensures Run(p, Start(map[]), SelfMatch(req, result, k)).st.book.ratings
      == map[req.agentId := p.form.defaultRating + d]
  {
    var joined := Step(p, Start(map[]), Join(AgentMode, req));
    var formed := Step(p, joined, Join(AgentMode, req));
    SelfMatchFormed(p, req, joined);
    SelfMatchSettled(p, req.agentId, formed, result, k, d);
    var registered := Step(p, formed, Registration(0, result.matchId));
    hide Step;
    RunFour(p, Start(map[]), Join(AgentMode, req), Join(AgentMode, req), Registration(0, result.matchId),
      Duel(result, k));
  }

  lemma RunCons(p: Params, sys: Sys, ev: Event, rest: seq<Event>)
    ensures Run(p, sys, [ev] + rest) == Run(p, Step(p, sys, ev), rest)
  {
    hide Step;
    assert ([ev] + rest)[1..] == rest;
  }

  lemma RunFour(p: Params, sys: Sys, a: Event, b: Event, c: Event, d: Event)
    ensures Run(p, sys, [a, b, c, d]) == Step(p, Step(p, Step(p, Step(p, sys, a), b), c), d)
  {
    hide Step;
    RunCons(p, sys, a, [b, c, d]);
    RunCons(p, Step(p, sys, a), b, [c, d]);
    RunCons(p, Step(p, Step(p, sys, a), b), c, [d]);
    RunCons(p, Step(p, Step(p, Step(p, sys, a), b), c), d, []);
    assert [a] + [b, c, d] == [a, b, c, d] && [b] + [c, d] == [b, c, d] && [c] + [d] == [c, d] && [d] + [] == [d];
  }
}
