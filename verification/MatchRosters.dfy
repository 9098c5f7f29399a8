/**
 Who is behind a settlement, over every run: a registration holds the ids of a formed ranked match in
 seat order, so a committed delta reaches the agent who sat in that seat; and a pending match
 settles exactly when its result fits it.
 */
module MatchRosters {
  import opened Common
  import opened Selection
  import opened Formation
  import opened Settlement
  import opened Matchmaking
  import opened MatchRuns
  import opened MatchRunFacts

  /** The ids of a roster, seat by seat. */
  ghost predicate Names(agents: seq<string>, roster: seq<Seated>) {
    |agents| == |roster| && forall i :: 0 <= i < |roster| ==> agents[i] == roster[i].agentId
  }

  /** A ranked match that was formed with this roster. */
  ghost predicate FormedAs(formed: seq<Match>, m: nat, roster: seq<Seated>) {
    m < |formed| && formed[m] == Match(AgentMode, roster)
  }

  /** The formed ranked match whose seats a registration holds. */
  ghost predicate HoldsSeats(formed: seq<Match>, agents: seq<string>, m: nat) {
    m < |formed| && formed[m].mode.AgentMode? && Names(agents, formed[m].roster)
  }

  /** No later outcome names the same id. */
  ghost predicate LastOfId(result: MatchResult, roster: seq<Seated>, i: nat)
    requires NamesSeats(result, roster) && i < |roster|
  {
    forall j :: i < j < |roster| ==> IdAt(result, roster, j) != IdAt(result, roster, i)
  }

  ghost predicate WasFormed(formed: seq<Match>, roster: seq<Seated>) {
    exists m: nat :: FormedAs(formed, m, roster)
  }

  ghost predicate HasSeats(formed: seq<Match>, agents: seq<string>) {
    exists m: nat :: HoldsSeats(formed, agents, m)
  }

  ghost predicate RosterInv(sys: Sys) {
    && (forall id :: id in sys.st.book.pending ==> HasSeats(sys.formed, sys.st.book.pending[id].agents))
    && (forall roster :: roster in sys.forming ==> WasFormed(sys.formed, roster))
  }

  lemma FormedLonger(formed: seq<Match>, longer: seq<Match>, roster: seq<Seated>, agents: seq<string>)
    requires formed <= longer
    ensures WasFormed(formed, roster) ==> WasFormed(longer, roster)
    ensures HasSeats(formed, agents) ==> HasSeats(longer, agents)
  {
    if WasFormed(formed, roster) {
      var m: nat :| FormedAs(formed, m, roster);
      assert FormedAs(longer, m, roster);
    }
    if HasSeats(formed, agents) {
      var m: nat :| HoldsSeats(formed, agents, m);
      assert HoldsSeats(longer, agents, m);
    }
  }

  /** What a registration stores: the formed roster's ids in seat order, and nothing else changes hands. */
  lemma RegistrationSeats(p: Params, sys: Sys, index: nat, id: MatchId)
    requires CanRegister(sys, index, id)
    ensures var next := Step(p, sys, Registration(index, id));
      && (id in next.st.book.pending ==> Names(next.st.book.pending[id].agents, sys.forming[index]))
      && (forall other :: other in next.st.book.pending && other != id ==>
          other in sys.st.book.pending && next.st.book.pending[other] == sys.st.book.pending[other])
      && next.forming == sys.forming[..index] + sys.forming[index + 1..] && next.formed == sys.formed
  {}

  lemma RosterRegister(p: Params, sys: Sys, index: nat, id: MatchId)
    requires RosterInv(sys) && CanRegister(sys, index, id)
    ensures RosterInv(Step(p, sys, Registration(index, id)))
  {
    RegistrationSeats(p, sys, index, id);
    var next := Step(p, sys, Registration(index, id));
    hide Step;
    assert sys.forming[index] in sys.forming;
    var m: nat :| FormedAs(sys.formed, m, sys.forming[index]);
    if id in next.st.book.pending { assert HoldsSeats(next.formed, next.st.book.pending[id].agents, m); }
    forall roster | roster in next.forming ensures WasFormed(next.formed, roster) {
      assert roster in sys.forming;
    }
  }

  /** A ranked match was formed and awaits its registration. */
  ghost predicate FormsRanked(sys: Sys, next: Sys) {
    exists roster ::
      next.forming == sys.forming + [roster] && next.formed == sys.formed + [Match(AgentMode, roster)]
  }

  /** A join registers nothing, and a match it forms awaits registration exactly when it is ranked. */
  lemma JoinForms(p: Params, sys: Sys, mode: Mode, req: JoinRequest)
    ensures var next := StepJoin(p, sys, mode, req);
      && next.st.book.pending == sys.st.book.pending && sys.formed <= next.formed
      && (next.forming == sys.forming || FormsRanked(sys, next))
      && (next.forming == sys.forming <==> next.formed == sys.formed || !mode.AgentMode?)
  {
    hide Formed, Seeded;
  }

  lemma RosterLonger(sys: Sys, next: Sys)
    requires RosterInv(sys) && sys.formed <= next.formed
    requires forall id :: id in next.st.book.pending ==>
      id in sys.st.book.pending && next.st.book.pending[id] == sys.st.book.pending[id]
    requires next.forming == sys.forming || FormsRanked(sys, next)
    ensures RosterInv(next)
  {
    forall id | id in next.st.book.pending ensures HasSeats(next.formed, next.st.book.pending[id].agents) {
      FormedLonger(sys.formed, next.formed, [], next.st.book.pending[id].agents);
    }
    forall roster | roster in next.forming ensures WasFormed(next.formed, roster) {
      if roster in sys.forming {
        FormedLonger(sys.formed, next.formed, roster, []);
      } else {
        assert FormedAs(next.formed, |sys.formed|, roster);
      }
    }
  }

  /** A settlement only takes registrations away. */
  lemma SettleTakesAway(p: Params, sys: Sys, ev: Event)
    requires ev.Duel? || ev.Field?
    ensures var next := Step(p, sys, ev);
      && next.forming == sys.forming && next.formed == sys.formed
      && forall id :: id in next.st.book.pending ==>
           id in sys.st.book.pending && next.st.book.pending[id] == sys.st.book.pending[id]
  {}

  lemma RosterStep(p: Params, sys: Sys, ev: Event)
    requires RosterInv(sys)
    ensures RosterInv(Step(p, sys, ev))
  {
    hide RosterInv, StepJoin, StepRegister;
    match ev
    case Join(mode, req) =>
      if Admit(p, mode, req).None? {
        JoinForms(p, sys, mode, req);
        RosterLonger(sys, StepJoin(p, sys, mode, req));
      }
    case Registration(index, id) => if CanRegister(sys, index, id) { RosterRegister(p, sys, index, id); }
    case _ =>
      SettleTakesAway(p, sys, ev);
      RosterLonger(sys, Step(p, sys, ev));
  }

  lemma {:induction false} RosterRun(p: Params, sys: Sys, evs: seq<Event>)
    requires RosterInv(sys)
    ensures RosterInv(Run(p, sys, evs))
    decreases |evs|
  {
    hide RosterInv, Step;
    if evs != [] {
      RosterStep(p, sys, evs[0]);
      RosterRun(p, Step(p, sys, evs[0]), evs[1..]);
    }
  }

  // ---- Who a committed delta reaches ---------------------------------------

  /** The result names one seat of this roster per outcome. */
  ghost predicate NamesSeats(result: MatchResult, roster: seq<Seated>) {
    |result.outcomes| == |roster| && forall i :: 0 <= i < |roster| ==> result.outcomes[i].seat < |roster|
  }

  /** The id seated where outcome i points. */
  function IdAt(result: MatchResult, roster: seq<Seated>, i: nat): string
    requires i < |result.outcomes| && result.outcomes[i].seat < |roster|
  {
    roster[result.outcomes[i].seat].agentId
  }

  /**
   Over every run: a committed field result settles a ranked match that was formed, and its i-th delta
   lands on the agent who was seated where its i-th outcome points, later outcomes of one id winning.
   */
  lemma DeltaReachesSeat(p: Params, ratings: Ladder, evs: seq<Event>, result: MatchResult, k: int) returns (m: nat)
    requires ZeroSum(p.core)
    requires SettleField(p.form, p.core, Run(p, Start(ratings), evs).st.book, result, k).1.Some?
    ensures var sys := Run(p, Start(ratings), evs);
      var next := Step(p, sys, Field(result, k));
      var deltas := SettleField(p.form, p.core, sys.st.book, result, k).1.value;
      && m < |sys.formed| && sys.formed[m].mode.AgentMode?
      && var roster := sys.formed[m].roster;
         && NamesSeats(result, roster) && |deltas| == |roster|
         && forall i :: 0 <= i < |roster| && LastOfId(result, roster, i) ==>
              && IdAt(result, roster, i) in next.st.book.ratings
              && next.st.book.ratings[IdAt(result, roster, i)]
                   == SaturatingAdd(RatingOf(p.form, sys.st.book.ratings, IdAt(result, roster, i)), deltas[i])
  {
    var sys := Run(p, Start(ratings), evs);
    RosterRun(p, Start(ratings), evs);
    hide Run;
    var book := sys.st.book;
    m :| HoldsSeats(sys.formed, book.pending[result.matchId].agents, m);
    var roster := sys.formed[m].roster;
    FieldBook(p, sys, result, k);
    EachLength(p, book, result, k);
    forall i | 0 <= i < |roster| && LastOfId(result, roster, i)
      ensures IdAt(result, roster, i) in Step(p, sys, Field(result, k)).st.book.ratings
      ensures Step(p, sys, Field(result, k)).st.book.ratings[IdAt(result, roster, i)]
        == SaturatingAdd(RatingOf(p.form, book.ratings, IdAt(result, roster, i)),
             SettleField(p.form, p.core, book, result, k).1.value[i])
    {
      LastSeat(book, result, roster, i);
      EachDeltaLands(p.form, p.core, book, result, k, i, "");
    }
  }

  /** The same for the one-against-one route. */
  lemma DuelReachesSeat(p: Params, ratings: Ladder, evs: seq<Event>, result: MatchResult, k: int) returns (m: nat)
    requires SettleDuel(p.form, p.core, Run(p, Start(ratings), evs).st.book, result, k).1.Some?
    ensures var sys := Run(p, Start(ratings), evs);
      var next := Step(p, sys, Duel(result, k));
      var (d, e) := SettleDuel(p.form, p.core, sys.st.book, result, k).1.value;
      && m < |sys.formed| && sys.formed[m].mode.AgentMode?
      && var roster := sys.formed[m].roster;
         && NamesSeats(result, roster) && |roster| == 2
         && var a, b := IdAt(result, roster, 0), IdAt(result, roster, 1);
            && b in next.st.book.ratings
            && next.st.book.ratings[b] == SaturatingAdd(RatingOf(p.form, sys.st.book.ratings, b), e)
            && (a != b ==>
                && a in next.st.book.ratings
                && next.st.book.ratings[a] == SaturatingAdd(RatingOf(p.form, sys.st.book.ratings, a), d))
  {
    var sys := Run(p, Start(ratings), evs);
    RosterRun(p, Start(ratings), evs);
    hide Run;
    DuelSettlesExactly(p.form, p.core, sys.st.book, result, k);
    m :| HoldsSeats(sys.formed, sys.st.book.pending[result.matchId].agents, m);
    DuelBook(p, sys, result, k);
    hide SettleDuel, Step;
  }

  lemma EachLength(p: Params, book: Book, result: MatchResult, k: int)
    requires ZeroSum(p.core) && SettleField(p.form, p.core, book, result, k).1.Some?
    ensures FieldFits(book, result)
    ensures |SettleField(p.form, p.core, book, result, k).1.value| == |result.outcomes|
  {}

  lemma FieldBook(p: Params, sys: Sys, result: MatchResult, k: int)
    ensures Step(p, sys, Field(result, k)).st.book == SettleField(p.form, p.core, sys.st.book, result, k).0
    ensures SettleField(p.form, p.core, sys.st.book, result, k).1.Some? ==> FieldFits(sys.st.book, result)
  {}

  lemma LastSeat(book: Book, result: MatchResult, roster: seq<Seated>, i: nat)
    requires FieldFits(book, result) && Names(book.pending[result.matchId].agents, roster) && i < |roster|
    requires NamesSeats(result, roster) && LastOfId(result, roster, i)
    ensures |result.outcomes| == |roster| && !Overruled(FieldAgents(book, result), i, |result.outcomes|)
  {
    forall j | i < j < |roster| ensures FieldAgents(book, result)[j] != FieldAgents(book, result)[i] {
      assert IdAt(result, roster, j) != IdAt(result, roster, i);
    }
  }

  // ---- Exactly when an event settles a match -------------------------------

  /** A pending match settles by a field result exactly when the result fits it; else nothing changes. */
  lemma FieldEventSettles(p: Params, sys: Sys, result: MatchResult, k: int, bases: seq<int>)
    requires result.matchId in sys.st.book.pending && |bases| == |result.outcomes|
    requires var agents := sys.st.book.pending[result.matchId].agents;
      forall i :: 0 <= i < |bases| && result.outcomes[i].seat < |agents| ==>
        bases[i] == RatingOf(p.form, sys.st.book.ratings, agents[result.outcomes[i].seat])
    ensures var next := Step(p, sys, Field(result, k));
      if SeatsPermute(result.outcomes, |sys.st.book.pending[result.matchId].agents|)
         && p.core.field(result, bases, k).Some?
      then next.settled == sys.settled + [result.matchId] && result.matchId !in next.st.book.pending
      else next == sys
  {
    FieldSettlesExactly(p.form, p.core, sys.st.book, result, k, bases);
    RefusedKeepsBook(p, sys.st, result, k);
    if SettleField(p.form, p.core, sys.st.book, result, k).1.Some? { FieldConsumes(p, sys.st, result, k); }
    hide SettleField, FieldFits, SeatsPermute;
  }

  /** The same for a one-against-one result. */
  lemma DuelEventSettles(p: Params, sys: Sys, result: MatchResult, k: int)
    ensures var book := sys.st.book;
      var next := Step(p, sys, Duel(result, k));
      if NamesBothSeats(book, result)
         && p.core.duel(result,
              RatingOf(p.form, book.ratings, AgentAt(book, result.matchId, result.outcomes[0].seat)),
              RatingOf(p.form, book.ratings, AgentAt(book, result.matchId, result.outcomes[1].seat)), k).Some?
      then next.settled == sys.settled + [result.matchId] && result.matchId !in next.st.book.pending
      else next == sys
  {
    DuelSettlesExactly(p.form, p.core, sys.st.book, result, k);
    RefusedKeepsBook(p, sys.st, result, k);
    if SettleDuel(p.form, p.core, sys.st.book, result, k).1.Some? { DuelConsumes(p, sys.st, result, k); }
    hide SettleDuel;
  }

  // ---- Who is on the ladder ------------------------------------------------

  /** The ids of the ranked joins admitted in a run. */
  ghost function RankedIds(p: Params, evs: seq<Event>): set<string> {
    set ev | ev in evs && Admitted(p, ev) && ev.mode.AgentMode? :: ev.req.agentId
  }

  /** A ranked join seeds a new id at the default rating; nothing else a join does touches the ladder. */
  lemma JoinSeeds(p: Params, sys: Sys, mode: Mode, req: JoinRequest)
    requires Admit(p, mode, req) == None
    ensures var before, after := sys.st.book.ratings, Step(p, sys, Join(mode, req)).st.book.ratings;
      && after.Keys == before.Keys + (if mode.AgentMode? then {req.agentId} else {})
      && (forall x :: x in before ==> after[x] == before[x])
      && (forall x :: x in after && x !in before ==> after[x] == p.form.defaultRating)
  {
    hide Formed;
  }

  lemma LadderKeysStep(p: Params, sys: Sys, ev: Event)
    requires p.form.seats >= 2 && BookInv(sys)
    ensures Step(p, sys, ev).st.book.ratings.Keys == sys.st.book.ratings.Keys + RankedIds(p, [ev])
  {
    match ev
    case Join(mode, req) =>
      if Admit(p, mode, req).None? { JoinSeeds(p, sys, mode, req); }
      assert RankedIds(p, [ev]) == if Admitted(p, ev) && mode.AgentMode? then {req.agentId} else {};
    case Registration(_, _) =>
    case Duel(result, k) => DuelSettles(p.form, p.core, sys.st.book, result, k);
    case Field(result, k) => FieldSettles(p.form, p.core, sys.st.book, result, k);
  }

  /** After any run the ladder holds exactly the starting agents and those who joined ranked. */
  lemma {:induction false} LadderMembers(p: Params, sys: Sys, evs: seq<Event>)
    requires p.form.seats >= 2 && BookInv(sys)
    ensures Run(p, sys, evs).st.book.ratings.Keys == sys.st.book.ratings.Keys + RankedIds(p, evs)
    decreases |evs|
  {
    hide BookInv, Step;
    if evs == [] {
      assert RankedIds(p, evs) == {};
    } else {
      BookStep(p, sys, evs[0]);
      LadderKeysStep(p, sys, evs[0]);
      LadderMembers(p, Step(p, sys, evs[0]), evs[1..]);
      assert evs == [evs[0]] + evs[1..];
      assert RankedIds(p, evs) == RankedIds(p, [evs[0]]) + RankedIds(p, evs[1..]);
    }
  }
}
