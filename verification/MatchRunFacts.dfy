/**
 What every run of the matchmaker keeps: the shape of the queues, one place for every
 admitted join, the bounded registry with oldest-first eviction, at most one settlement per
 match, and a bound on how long a ranked agent waits.
 */
module MatchRunFacts {
  import opened Common
  import opened Selection
  import opened Formation
  import opened Settlement
  import opened Matchmaking
  import opened MatchRuns

  // ---- Seats ---------------------------------------------------------------

  ghost function SeatedIn(formed: seq<Match>): multiset<Seated> {
    if formed == [] then multiset{} else SeatedIn(formed[..|formed| - 1]) + multiset(formed[|formed| - 1].roster)
  }

  /** Everyone waiting in some queue or seated in some match. */
  ghost function Placed(sys: Sys): multiset<Seated> {
    multiset(sys.st.human) + multiset(sys.st.agent) + multiset(sys.st.mixed) + SeatedIn(sys.formed)
  }

  ghost predicate MatchOk(p: Params, m: Match) { |m.roster| == p.form.seats && CompositionOk(m.mode, m.roster) }

  ghost predicate MatchesOk(p: Params, formed: seq<Match>) { forall i :: 0 <= i < |formed| ==> MatchOk(p, formed[i]) }

  ghost predicate Shapes(p: Params, st: State) {
    && QueueOk(p.form, HumanMode, st.human) && QueueOk(p.form, AgentMode, st.agent)
    && QueueOk(p.form, MixedMode, st.mixed)
  }

  ghost predicate Numbered(joined: seq<Seated>) { forall i :: 0 <= i < |joined| ==> joined[i].ticket == i }

  ghost predicate SeatInv(p: Params, sys: Sys) {
    Shapes(p, sys.st) && MatchesOk(p, sys.formed) && Numbered(sys.joined) && multiset(sys.joined) == Placed(sys)
  }

  lemma SeatedInSnoc(formed: seq<Match>, m: Match)
    ensures SeatedIn(formed + [m]) == SeatedIn(formed) + multiset(m.roster)
  {
    assert (formed + [m])[..|formed|] == formed;
  }

  ghost function OtherQueues(st: State, mode: Mode): multiset<Seated> {
    match mode
    case HumanMode => multiset(st.agent) + multiset(st.mixed)
    case AgentMode => multiset(st.human) + multiset(st.mixed)
    case MixedMode => multiset(st.human) + multiset(st.agent)
  }

  lemma PlacedSplit(sys: Sys, mode: Mode)
    ensures Placed(sys) == multiset(QueueFor(sys.st, mode)) + OtherQueues(sys.st, mode) + SeatedIn(sys.formed)
  {}

  lemma Regroup(q: multiset<Seated>, left: multiset<Seated>, roster: multiset<Seated>, others: multiset<Seated>,
      seated: multiset<Seated>, x: Seated)
    requires left + roster == q + multiset{x}
    ensures left + others + (seated + roster) == q + others + seated + multiset{x}
  {
    forall e ensures (left + others + (seated + roster))[e] == (q + others + seated + multiset{x})[e] {
      assert (left + roster)[e] == (q + multiset{x})[e];
    }
  }

  ghost function RosterBag(roster: Option<seq<Seated>>): multiset<Seated> {
    if roster.None? then multiset{} else multiset(roster.value)
  }

  lemma FormedBag(p: FormParams, mode: Mode, ratings: Ladder, q: seq<Seated>, x: Seated)
    requires p.seats >= 2
    ensures var (roster, left) := Formed(p, mode, ratings, q + [x]);
      multiset(left) + RosterBag(roster) == multiset(q) + multiset{x}
  {
    FormedParts(p, mode, ratings, q + [x]);
    assert multiset(q + [x]) == multiset(q) + multiset{x};
  }

  /** Which parts of the system a join changes. */
  lemma JoinChanges(p: Params, sys: Sys, mode: Mode, req: JoinRequest)
    ensures var next := StepJoin(p, sys, mode, req);
      var (roster, left) := Formed(p.form, mode, Seeded(p, mode, sys.st.book.ratings, req.agentId),
        QueueFor(sys.st, mode) + [Ticket(sys, req)]);
      && QueueFor(next.st, mode) == left && OtherQueues(next.st, mode) == OtherQueues(sys.st, mode)
      && SeatedIn(next.formed) == SeatedIn(sys.formed) + RosterBag(roster)
  {
    var (roster, left) := Formed(p.form, mode, Seeded(p, mode, sys.st.book.ratings, req.agentId),
      QueueFor(sys.st, mode) + [Ticket(sys, req)]);
    if roster.Some? { SeatedInSnoc(sys.formed, Match(mode, roster.value)); }
  }

  /** The new arrival is the only change to who is placed somewhere. */
  lemma PlacedJoin(p: Params, sys: Sys, mode: Mode, req: JoinRequest)
    requires p.form.seats >= 2
    ensures Placed(StepJoin(p, sys, mode, req)) == Placed(sys) + multiset{Ticket(sys, req)}
  {
    var x, q := Ticket(sys, req), QueueFor(sys.st, mode);
    var ratings := Seeded(p, mode, sys.st.book.ratings, x.agentId);
    FormedBag(p.form, mode, ratings, q, x);
    JoinChanges(p, sys, mode, req);
    PlacedSplit(sys, mode);
    PlacedSplit(StepJoin(p, sys, mode, req), mode);
    var (roster, left) := Formed(p.form, mode, ratings, q + [x]);
    Regroup(multiset(q), multiset(left), RosterBag(roster), OtherQueues(sys.st, mode), SeatedIn(sys.formed), x);
  }

  lemma ShapesJoin(p: Params, sys: Sys, mode: Mode, req: JoinRequest)
    requires p.form.seats >= 2 && Shapes(p, sys.st) && MatchesOk(p, sys.formed) && Admit(p, mode, req) == None
    ensures Shapes(p, StepJoin(p, sys, mode, req).st) && MatchesOk(p, StepJoin(p, sys, mode, req).formed)
  {
    var x := Ticket(sys, req);
    AdmittedSeat(p, mode, req);
    JoinKeepsQueue(p.form, mode, Seeded(p, mode, sys.st.book.ratings, x.agentId), QueueFor(sys.st, mode), x);
  }

  lemma SeatJoin(p: Params, sys: Sys, mode: Mode, req: JoinRequest)
    requires p.form.seats >= 2 && SeatInv(p, sys) && Admit(p, mode, req) == None
    ensures SeatInv(p, StepJoin(p, sys, mode, req))
  {
    ShapesJoin(p, sys, mode, req);
    PlacedJoin(p, sys, mode, req);
  }

  /** A registration or a settlement touches nobody's place. */
  lemma SeatFrame(p: Params, sys: Sys, next: Sys)
    requires SeatInv(p, sys) && next.joined == sys.joined && next.formed == sys.formed
    requires next.st.human == sys.st.human && next.st.agent == sys.st.agent && next.st.mixed == sys.st.mixed
    ensures SeatInv(p, next)
  {}

  lemma SeatStep(p: Params, sys: Sys, ev: Event)
    requires p.form.seats >= 2 && SeatInv(p, sys)
    ensures SeatInv(p, Step(p, sys, ev))
  {
    if ev.Join? {
      if Admit(p, ev.mode, ev.req).None? { SeatJoin(p, sys, ev.mode, ev.req); }
    } else {
      SeatFrame(p, sys, Step(p, sys, ev));
    }
  }

  lemma {:induction false} SeatRun(p: Params, sys: Sys, evs: seq<Event>)
    requires p.form.seats >= 2 && SeatInv(p, sys)
    ensures SeatInv(p, Run(p, sys, evs))
    decreases |evs|
  {
    if evs != [] {
      SeatStep(p, sys, evs[0]);
      SeatRun(p, Step(p, sys, evs[0]), evs[1..]);
    }
  }

  lemma {:induction false} TicketsOnce(joined: seq<Seated>, t: nat)
    requires t < |joined| && Numbered(joined)
    ensures multiset(joined)[joined[t]] == 1
  {
    var n := |joined| - 1;
    assert joined == joined[..n] + [joined[n]];
    if t < n {
      TicketsOnce(joined[..n], t);
    } else {
      assert joined[n] !in joined[..n];
    }
  }

  /**
   Seat conservation and queue shape, over every run: the human queue is all human and shorter
   than a match, the ranked pool is all agents and under two matches, the mixed queue is under a
   match or single-kind, every match formed passes the composition assertion at full size, and
   every admitted join is in exactly one place, a queue or one roster.
   */
  lemma EveryJoinInOnePlace(p: Params, ratings: Ladder, evs: seq<Event>, t: nat)
    requires p.form.seats >= 2 && t < |Run(p, Start(ratings), evs).joined|
    ensures var sys := Run(p, Start(ratings), evs);
      SeatInv(p, sys) && Placed(sys)[sys.joined[t]] == 1
  {
    SeatRun(p, Start(ratings), evs);
    TicketsOnce(Run(p, Start(ratings), evs).joined, t);
  }

  // ---- The registry --------------------------------------------------------

  /** A saturating counter after n increments. */
  function Capped(n: nat): nat { if n < U64_MAX then n else U64_MAX }

  /** Each pending entry carries the number of its registration, up to where the counter saturates. */
  ghost predicate Stamped(reg: Registry, registered: seq<MatchId>) {
    forall i :: 0 <= i < |registered| && registered[i] in reg ==> reg[registered[i]].seqNo == Capped(i)
  }

  ghost predicate NoRepeat(ids: seq<MatchId>) { forall i, j :: 0 <= i < j < |ids| ==> ids[i] != ids[j] }

  ghost predicate RegistryInv(p: Params, sys: Sys) {
    && (p.cap > 0 ==> |sys.st.book.pending| <= p.cap)
    && Accounted(sys.registered, sys.st.book.pending, sys.settled, sys.evicted)
    && sys.st.nextSeq == Capped(|sys.registered|) && sys.st.evictions == Capped(|sys.evicted|)
    && Stamped(sys.st.book.pending, sys.registered)
  }

  lemma RemoveKey(reg: Registry, id: MatchId)
    requires id in reg
    ensures multiset(reg.Keys) == multiset((reg - {id}).Keys) + multiset{id} && |reg - {id}| == |reg| - 1
  {
    assert (reg - {id}).Keys == reg.Keys - {id};
  }

  lemma AddKey(reg: Registry, id: MatchId, entry: Pending)
    requires id !in reg
    ensures multiset(reg[id := entry].Keys) == multiset(reg.Keys) + multiset{id} && |reg[id := entry]| == |reg| + 1
  {
    assert reg[id := entry].Keys == reg.Keys + {id};
  }

  lemma RegisteredContains(p: Params, sys: Sys, id: MatchId)
    requires RegistryInv(p, sys) && id in sys.st.book.pending
    ensures id in sys.registered
  {
    assert id in multiset(sys.registered);
  }

  lemma StampedGrows(reg: Registry, registered: seq<MatchId>, id: MatchId, agents: seq<string>)
    requires Stamped(reg, registered) && id !in registered
    ensures Stamped(reg[id := Pending(Capped(|registered|), agents)], registered + [id])
  {
    var reg' := reg[id := Pending(Capped(|registered|), agents)];
    forall i | 0 <= i < |registered + [id]| && (registered + [id])[i] in reg'
      ensures reg'[(registered + [id])[i]].seqNo == Capped(i)
    {
      if i < |registered| { assert registered[i] in registered; }
    }
  }

  /** Every registered id is pending, settled or evicted, and in one of these only. */
  ghost predicate Accounted(registered: seq<MatchId>, reg: Registry, settled: seq<MatchId>, evicted: seq<MatchId>) {
    NoRepeat(registered) && multiset(registered) == multiset(reg.Keys) + multiset(settled) + multiset(evicted)
  }

  lemma AccountNew(registered: seq<MatchId>, reg: Registry, settled: seq<MatchId>, evicted: seq<MatchId>,
      id: MatchId, entry: Pending)
    requires Accounted(registered, reg, settled, evicted) && id !in registered && id !in reg
    ensures Accounted(registered + [id], reg[id := entry], settled, evicted)
  {
    AddKey(reg, id, entry);
    assert multiset(registered + [id]) == multiset(registered) + multiset{id};
  }

  lemma AccountGone(registered: seq<MatchId>, reg: Registry, settled: seq<MatchId>, evicted: seq<MatchId>, id: MatchId)
    requires Accounted(registered, reg, settled, evicted) && id in reg
    ensures Accounted(registered, reg - {id}, settled, evicted + [id])
    ensures Accounted(registered, reg - {id}, settled + [id], evicted)
  {
    RemoveKey(reg, id);
    assert multiset(evicted + [id]) == multiset(evicted) + multiset{id};
    assert multiset(settled + [id]) == multiset(settled) + multiset{id};
  }

  /** Registering, within the cap or over it. */
  lemma RegisterStep(p: Params, sys: Sys, index: nat, id: MatchId)
    requires RegistryInv(p, sys) && CanRegister(sys, index, id)
    ensures RegistryInv(p, StepRegister(p, sys, index, id))
  {
    var pending := sys.st.book.pending;
    var entry := Pending(sys.st.nextSeq, Ids(sys.forming[index]));
    var reg := pending[id := entry];
    if id in pending { RegisteredContains(p, sys, id); }
    AddKey(pending, id, entry);
    AccountNew(sys.registered, pending, sys.settled, sys.evicted, id, entry);
    if OverCap(p, reg) {
      RemoveKey(reg, Oldest(reg));
      AccountGone(sys.registered + [id], reg, sys.settled, sys.evicted, Oldest(reg));
    }
    StampedGrows(pending, sys.registered, id, entry.agents);
  }

  lemma SettleStep(p: Params, sys: Sys, after: State, id: MatchId)
    requires RegistryInv(p, sys) && id in sys.st.book.pending
    requires after == sys.st.(book := after.book) && after.book.pending == sys.st.book.pending - {id}
    ensures RegistryInv(p, StepSettle(sys, after, id, true))
  {
    RemoveKey(sys.st.book.pending, id);
    AccountGone(sys.registered, sys.st.book.pending, sys.settled, sys.evicted, id);
  }

  lemma DuelConsumes(p: Params, st: State, result: MatchResult, k: int)
    requires SettleDuel(p.form, p.core, st.book, result, k).1.Some?
    ensures result.matchId in st.book.pending
    ensures ApplyDuel(p, st, result, k).book.pending == st.book.pending - {result.matchId}
  {}

  lemma FieldConsumes(p: Params, st: State, result: MatchResult, k: int)
    requires SettleField(p.form, p.core, st.book, result, k).1.Some?
    ensures result.matchId in st.book.pending
    ensures ApplyField(p, st, result, k).book.pending == st.book.pending - {result.matchId}
  {}

  lemma RefusedKeepsBook(p: Params, st: State, result: MatchResult, k: int)
    ensures SettleDuel(p.form, p.core, st.book, result, k).1.None? ==> ApplyDuel(p, st, result, k) == st
    ensures SettleField(p.form, p.core, st.book, result, k).1.None? ==> ApplyField(p, st, result, k) == st
  {}

  /** A join leaves the registry alone. */
  lemma RegistryJoin(p: Params, sys: Sys, mode: Mode, req: JoinRequest)
    requires RegistryInv(p, sys)
    ensures RegistryInv(p, StepJoin(p, sys, mode, req))
  {
    var next := StepJoin(p, sys, mode, req);
    assert next.st.book.pending == sys.st.book.pending && next.st.nextSeq == sys.st.nextSeq;
  }

  lemma RegistryStep(p: Params, sys: Sys, ev: Event)
    requires RegistryInv(p, sys)
    ensures RegistryInv(p, Step(p, sys, ev))
  {
    match ev
    case Join(mode, req) => RegistryJoin(p, sys, mode, req);
    case Registration(index, id) => if CanRegister(sys, index, id) { RegisterStep(p, sys, index, id); }
    case Duel(result, k) =>
      RefusedKeepsBook(p, sys.st, result, k);
      if SettleDuel(p.form, p.core, sys.st.book, result, k).1.Some? {
        DuelConsumes(p, sys.st, result, k);
        SettleStep(p, sys, ApplyDuel(p, sys.st, result, k), result.matchId);
      }
    case Field(result, k) =>
      RefusedKeepsBook(p, sys.st, result, k);
      if SettleField(p.form, p.core, sys.st.book, result, k).1.Some? {
        FieldConsumes(p, sys.st, result, k);
        SettleStep(p, sys, ApplyField(p, sys.st, result, k), result.matchId);
      }
  }

  lemma {:induction false} RegistryRun(p: Params, sys: Sys, evs: seq<Event>)
    requires RegistryInv(p, sys)
    ensures RegistryInv(p, Run(p, sys, evs))
    decreases |evs|
  {
    if evs != [] {
      RegistryStep(p, sys, evs[0]);
      RegistryRun(p, Step(p, sys, evs[0]), evs[1..]);
    }
  }

  lemma {:induction false} NoRepeatOnce(ids: seq<MatchId>, id: MatchId)
    requires NoRepeat(ids)
    ensures multiset(ids)[id] <= 1
  {
    if ids != [] {
      var n := |ids| - 1;
      assert ids == ids[..n] + [ids[n]];
      NoRepeatOnce(ids[..n], id);
      assert ids[n] !in ids[..n];
    }
  }

  /**
   The registry over every run: pending never exceeds a non-zero cap, every registered match is
   pending, settled or evicted, and no match settles twice or after its eviction.
   */
  lemma RegistryFacts(p: Params, ratings: Ladder, evs: seq<Event>, id: MatchId)
    ensures var sys := Run(p, Start(ratings), evs);
      && (p.cap > 0 ==> |sys.st.book.pending| <= p.cap)
      && |sys.registered| == |sys.st.book.pending| + |sys.settled| + |sys.evicted|
      && multiset(sys.settled)[id] + multiset(sys.evicted)[id] + (if id in sys.st.book.pending then 1 else 0) <= 1
  {
    RegistryRun(p, Start(ratings), evs);
    var sys := Run(p, Start(ratings), evs);
    NoRepeatOnce(sys.registered, id);
    assert |multiset(sys.registered)| == |sys.registered|;
    assert |multiset(sys.settled)| == |sys.settled| && |multiset(sys.evicted)| == |sys.evicted|;
    assert |multiset(sys.st.book.pending.Keys)| == |sys.st.book.pending|;
  }

  /** Only a match registered in this run ever settles, so a result from before a restart never does. */
  lemma OnlyRegisteredSettle(p: Params, ratings: Ladder, evs: seq<Event>, id: MatchId)
    requires id !in Run(p, Start(ratings), evs).registered
    ensures id !in Run(p, Start(ratings), evs).settled
  {
    RegistryRun(p, Start(ratings), evs);
    var sys := Run(p, Start(ratings), evs);
    assert id !in multiset(sys.registered);
  }

  /** Registration i came before registration j, or both after the counter had saturated, by lower id. */
  ghost predicate Older(registered: seq<MatchId>, i: nat, j: nat)
    requires i < |registered| && j < |registered|
  {
    i < j || (U64_MAX <= j < i && registered[i] < registered[j])
  }

  /** The oldest entry of a stamped registry is the one registered first. */
  lemma OldestIsFirst(reg: Registry, registered: seq<MatchId>, i: nat, j: nat)
    requires Stamped(reg, registered) && i < |registered| && j < |registered| && registered[i] != registered[j]
    requires registered[i] in reg && registered[j] in reg && IsOldest(reg, registered[i])
    ensures Older(registered, i, j)
  {
    assert Precedes(reg, registered[i], registered[j]);
  }

  /**
   A registration evicts only when the cap is reached, and then only an entry that is older
   than every one of the `cap` entries left pending. Past 2^64 - 1 registrations the stamps no
   longer tell entries apart, and the lowest id among those goes first. A cap of 0 never evicts.
   */
  lemma EvictsOldest(p: Params, sys: Sys, index: nat, id: MatchId)
    requires RegistryInv(p, sys) && CanRegister(sys, index, id)
    ensures StepRegister(p, sys, index, id).evicted == sys.evicted
      <==> p.cap == 0 || |sys.st.book.pending| < p.cap
    ensures var next := StepRegister(p, sys, index, id);
      next.evicted != sys.evicted ==>
        && |next.evicted| == |sys.evicted| + 1 && |next.st.book.pending| == p.cap
        && var victim := next.evicted[|sys.evicted|];
           && victim in next.registered
           && forall i, j :: 0 <= i < |next.registered| && 0 <= j < |next.registered|
                && next.registered[i] == victim && next.registered[j] in next.st.book.pending
                ==> Older(next.registered, i, j)
  {
    RegisterStep(p, sys, index, id);
    var next := StepRegister(p, sys, index, id);
    var entry := Pending(sys.st.nextSeq, Ids(sys.forming[index]));
    var reg := sys.st.book.pending[id := entry];
    if id in sys.st.book.pending { RegisteredContains(p, sys, id); }
    AddKey(sys.st.book.pending, id, entry);
    if OverCap(p, reg) {
      var victim := Oldest(reg);
      RemoveKey(reg, victim);
      StampedGrows(sys.st.book.pending, sys.registered, id, entry.agents);
      if victim != id { RegisteredContains(p, sys, victim); }
      assert id in next.registered by { assert next.registered[|sys.registered|] == id; }
      hide Stamped, IsOldest;
      forall i, j | 0 <= i < |next.registered| && 0 <= j < |next.registered|
          && next.registered[i] == victim && next.registered[j] in next.st.book.pending
        ensures Older(next.registered, i, j)
      {
        OldestIsFirst(reg, next.registered, i, j);
      }
    }
  }

  // ---- Waiting -------------------------------------------------------------

  ghost function RankedJoins(p: Params, evs: seq<Event>): nat {
    if evs == [] then 0 else
      (if Admitted(p, evs[0]) && evs[0].mode.AgentMode? then 1 else 0) + RankedJoins(p, evs[1..])
  }

  ghost predicate SeatedSomewhere(formed: seq<Match>, x: Seated) {
    exists i :: 0 <= i < |formed| && x in formed[i].roster
  }

  /** After one ranked join the agent at index i is seated, or stays and moves up if a match formed. */
  lemma RankedJoinProgress(p: Params, ratings: Ladder, q: seq<Seated>, x: Seated, i: nat)
    requires p.form.seats >= 2 && i < |q|
    ensures var (roster, left) := Formed(p.form, AgentMode, ratings, q + [x]);
      if roster.None? then left == q + [x]
      else q[i] in roster.value || exists j: nat :: j < i && j < |left| && left[j] == q[i]
  {
    var q' := q + [x];
    if Picks(p.form, AgentMode, ratings, q').Some? {
      PicksGood(p.form, AgentMode, ratings, q');
      var picks := Picks(p.form, AgentMode, ratings, q').value;
      var taken := ToSet(picks);
      assert picks[0] == 0 && 0 in taken;
      if i in taken {
        ChosenPlace(q', taken, 0, i);
      } else {
        RestPlace(q', taken, 0, i);
        assert Count(taken, 0, i) >= 1;
      }
    }
  }

  /** How many ranked joins can still pass before index i of a pool of length n is seated. */
  ghost function Patience(p: Params, i: nat, n: nat): int { (i + 2) * p.form.seats - n }

  lemma PatienceShrinks(p: Params, i: nat, j: nat, n: nat)
    requires j < i && n + 1 >= p.form.seats
    ensures Patience(p, j, n + 1 - p.form.seats) <= Patience(p, i, n) - 1
  {
    var s := p.form.seats;
    assert (j + 2) * s + s == (j + 3) * s;
    assert (j + 3) * s <= (i + 2) * s;
  }

  lemma RankedStep(p: Params, sys: Sys, req: JoinRequest, i: nat) returns (j: nat)
    requires p.form.seats >= 2 && i < |sys.st.agent|
    ensures var next := StepJoin(p, sys, AgentMode, req);
      SeatedSomewhere(next.formed, sys.st.agent[i])
      || (j < |next.st.agent| && next.st.agent[j] == sys.st.agent[i]
          && Patience(p, j, |next.st.agent|) <= Patience(p, i, |sys.st.agent|) - 1)
  {
    var x, q := Ticket(sys, req), sys.st.agent;
    var ratings := Seeded(p, AgentMode, sys.st.book.ratings, x.agentId);
    RankedJoinProgress(p, ratings, q, x, i);
    FormedParts(p.form, AgentMode, ratings, q + [x]);
    var (roster, left) := Formed(p.form, AgentMode, ratings, q + [x]);
    var next := StepJoin(p, sys, AgentMode, req);
    j := i;
    if roster.Some? {
      if q[i] in roster.value {
        assert q[i] in next.formed[|sys.formed|].roster;
      } else {
        var l: nat :| l < i && l < |left| && left[l] == q[i];
        j := l;
        PatienceShrinks(p, i, l, |q|);
      }
    }
  }

  /** Matches once formed stay formed. */
  lemma {:induction false} FormedStays(p: Params, sys: Sys, evs: seq<Event>, x: Seated)
    requires SeatedSomewhere(sys.formed, x)
    ensures SeatedSomewhere(Run(p, sys, evs).formed, x)
    decreases |evs|
  {
    if evs != [] {
      var next := Step(p, sys, evs[0]);
      assert sys.formed <= next.formed;
      var i :| 0 <= i < |sys.formed| && x in sys.formed[i].roster;
      assert next.formed[i] == sys.formed[i];
      FormedStays(p, next, evs[1..], x);
    }
  }

  /** Any other step leaves the ranked pool as it is. */
  lemma PoolKept(p: Params, sys: Sys, ev: Event)
    requires !(Admitted(p, ev) && ev.mode.AgentMode?)
    ensures Step(p, sys, ev).st.agent == sys.st.agent
  {}

  lemma PatiencePositive(p: Params, i: nat, n: nat)
    requires n < 2 * p.form.seats
    ensures Patience(p, i, n) > 0
  {
    assert (i + 2) * p.form.seats >= 2 * p.form.seats;
  }

  /**
   Bounded waiting. Whatever the ratings, the tolerance and the settlements in between, an agent
   at index i of a ranked pool of length n is seated by the time (i + 2) * seats - n more ranked
   joins have been admitted.
   */
  lemma {:induction false} BoundedWaiting(p: Params, sys: Sys, evs: seq<Event>, i: nat)
    requires p.form.seats >= 2 && SeatInv(p, sys) && i < |sys.st.agent|
    requires RankedJoins(p, evs) >= Patience(p, i, |sys.st.agent|)
    ensures SeatedSomewhere(Run(p, sys, evs).formed, sys.st.agent[i])
    decreases |evs|
  {
    PatiencePositive(p, i, |sys.st.agent|);
    var ev, rest := evs[0], evs[1..];
    SeatStep(p, sys, ev);
    if Admitted(p, ev) && ev.mode.AgentMode? {
      var j := RankedStep(p, sys, ev.req, i);
      WaitingAfterJoin(p, sys, ev, rest, i, j);
    } else {
      PoolKept(p, sys, ev);
      BoundedWaiting(p, Step(p, sys, ev), rest, i);
    }
  }

  lemma {:induction false} WaitingAfterJoin(p: Params, sys: Sys, ev: Event, rest: seq<Event>, i: nat, j: nat)
    requires p.form.seats >= 2 && i < |sys.st.agent| && SeatInv(p, Step(p, sys, ev))
    requires var next := Step(p, sys, ev);
      SeatedSomewhere(next.formed, sys.st.agent[i])
      || (j < |next.st.agent| && next.st.agent[j] == sys.st.agent[i]
          && RankedJoins(p, rest) >= Patience(p, j, |next.st.agent|))
    ensures SeatedSomewhere(Run(p, Step(p, sys, ev), rest).formed, sys.st.agent[i])
    decreases |rest| + 1, 0
  {
    var next := Step(p, sys, ev);
    if SeatedSomewhere(next.formed, sys.st.agent[i]) {
      FormedStays(p, next, rest, sys.st.agent[i]);
    } else {
      BoundedWaiting(p, next, rest, j);
    }
  }
}
