/**
 The matchmaker: admission, the locked section of a join, the separately locked registration
 of a formed ranked match with its bounded registry, the two settle routes, and snapshots.
 Each locked section is a function on the state, and a method of the class that computes it.
 */
module Matchmaking {
  import opened Common
  import opened Selection
  import opened Formation
  import opened Settlement

  datatype Params = Params(
    form: FormParams, cap: nat, core: Core, registry: Option<map<string, int>>, reputationFloor: int)

  /** `token` is `None` when none was presented, else the verifier's answer on it. */
  datatype JoinRequest = JoinRequest(agentId: string, kind: Kind, token: Option<bool>)

  datatype JoinError = WrongKindForMode | Unauthenticated | NotRegistered | ReputationBelowFloor

  const U64_MAX: nat := 0xffff_ffff_ffff_ffff

  function SaturatingInc(n: nat): nat { if n < U64_MAX then n + 1 else n }

  /** Everything behind the matchmaker's lock. */
  datatype State = State(
    human: seq<Seated>, agent: seq<Seated>, mixed: seq<Seated>, book: Book, nextSeq: nat, evictions: nat)

  function Initial(ratings: Ladder): State { State([], [], [], Book(ratings, map[]), 0, 0) }

  function QueueFor(st: State, mode: Mode): seq<Seated> {
    match mode case HumanMode => st.human case AgentMode => st.agent case MixedMode => st.mixed
  }

  function WithQueue(st: State, mode: Mode, q: seq<Seated>): State {
    match mode
    case HumanMode => st.(human := q)
    case AgentMode => st.(agent := q)
    case MixedMode => st.(mixed := q)
  }

  // ---- Admission -----------------------------------------------------------

  /** `admit`: kind, identity and standing, before any queue is touched. */
  function Admit(p: Params, mode: Mode, req: JoinRequest): Option<JoinError> {
    if (mode.HumanMode? && req.kind.Agent?) || (mode.AgentMode? && req.kind.Human?) then Some(WrongKindForMode)
    else if req.kind.Human? then None
    else if (req.token.Some? && !req.token.value) || (req.token.None? && mode.AgentMode?) then Some(Unauthenticated)
    else if mode.AgentMode? && p.registry.Some? then
      if req.agentId !in p.registry.value then Some(NotRegistered)
      else if p.registry.value[req.agentId] < p.reputationFloor then Some(ReputationBelowFloor)
      else None
    else None
  }

  /** The identity and standing a request has to prove for its mode. */
  ghost predicate Proven(p: Params, mode: Mode, req: JoinRequest) {
    && (req.token.Some? ==> req.token.value)
    && (mode.AgentMode? ==>
        && req.token.Some?
        && (p.registry.Some? ==> req.agentId in p.registry.value && p.registry.value[req.agentId] >= p.reputationFloor))
  }

  /**
   Exactly who is admitted: a kind that fits the mode, and for an agent, proof of who it is. A wrong
   kind is reported before a missing proof, and a missing proof before a missing standing.
   */
  lemma AdmittedSeat(p: Params, mode: Mode, req: JoinRequest)
    ensures Admit(p, mode, req) == None <==> KindAllowed(mode, req.kind) && (req.kind.Agent? ==> Proven(p, mode, req))
    ensures Admit(p, mode, req) == Some(WrongKindForMode) <==> !KindAllowed(mode, req.kind)
    ensures Admit(p, mode, req) == Some(Unauthenticated)
      <==> KindAllowed(mode, req.kind) && req.kind.Agent?
           && (if req.token.Some? then !req.token.value else mode.AgentMode?)
    ensures Admit(p, mode, req) == Some(NotRegistered) ==>
      mode.AgentMode? && p.registry.Some? && req.agentId !in p.registry.value
    ensures Admit(p, mode, req) == Some(ReputationBelowFloor) ==>
      mode.AgentMode? && p.registry.Some? && req.agentId in p.registry.value
      && p.registry.value[req.agentId] < p.reputationFloor
  {}

  // ---- The locked sections -------------------------------------------------

  /** A ranked join enters the ladder at the seed rating. */
  function Seeded(p: Params, mode: Mode, ratings: Ladder, id: string): Ladder {
    if mode.AgentMode? && id !in ratings then ratings[id := p.form.defaultRating] else ratings
  }

  /** Nobody's rating changes by being seeded: an agent the book lacks already counts at the seed rating. */
  lemma SeedingMovesNobody(p: Params, mode: Mode, ratings: Ladder, id: string, x: string)
    ensures RatingOf(p.form, Seeded(p, mode, ratings, id), x) == RatingOf(p.form, ratings, x)
    ensures x in ratings ==> RatingOf(p.form, ratings, x) == ratings[x]
  {}

  function JoinLocked(p: Params, st: State, mode: Mode, x: Seated): (State, Option<seq<Seated>>) {
    var ratings := Seeded(p, mode, st.book.ratings, x.agentId);
    var (roster, left) := Formed(p.form, mode, ratings, QueueFor(st, mode) + [x]);
    (WithQueue(st.(book := st.book.(ratings := ratings)), mode, left), roster)
  }

  predicate Precedes(reg: Registry, a: MatchId, b: MatchId)
    requires a in reg && b in reg
  {
    reg[a].seqNo < reg[b].seqNo || (reg[a].seqNo == reg[b].seqNo && a <= b)
  }

  ghost predicate IsOldest(reg: Registry, id: MatchId) {
    id in reg && forall other :: other in reg ==> Precedes(reg, id, other)
  }

  lemma {:induction false} OldestExists(reg: Registry)
    requires reg != map[]
    ensures exists id :: IsOldest(reg, id)
    decreases |reg|
  {
    var id :| id in reg;
    var rest := reg - {id};
    assert rest.Keys == reg.Keys - {id};
    if rest == map[] {
      assert forall other :: other in reg ==> other in rest || other == id;
      assert IsOldest(reg, id);
    } else {
      OldestExists(rest);
      var best :| IsOldest(rest, best);
      assert forall other :: other in reg ==> other in rest || other == id;
      if Precedes(reg, best, id) {
        assert IsOldest(reg, best);
      } else {
        assert IsOldest(reg, id);
      }
    }
  }

  ghost function Oldest(reg: Registry): (id: MatchId)
    requires reg != map[]
    ensures IsOldest(reg, id)
  {
    OldestExists(reg);
    var id :| IsOldest(reg, id);
    id
  }

  lemma OldestUnique(reg: Registry, a: MatchId, b: MatchId)
    requires IsOldest(reg, a) && IsOldest(reg, b)
    ensures a == b
  {
    assert Precedes(reg, a, b) && Precedes(reg, b, a);
  }

  predicate OverCap(p: Params, reg: Registry) { p.cap != 0 && |reg| > p.cap }

  /** The re-locked registration in `build`, evicting the oldest entry over the cap. */
  ghost function Register(p: Params, st: State, agents: seq<string>, id: MatchId): State {
    var reg := st.book.pending[id := Pending(st.nextSeq, agents)];
    var next := st.(nextSeq := SaturatingInc(st.nextSeq));
    if OverCap(p, reg)
    then next.(book := st.book.(pending := reg - {Oldest(reg)}), evictions := SaturatingInc(st.evictions))
    else next.(book := st.book.(pending := reg))
  }

  function ApplyDuel(p: Params, st: State, result: MatchResult, k: int): State {
    st.(book := SettleDuel(p.form, p.core, st.book, result, k).0)
  }

  function ApplyField(p: Params, st: State, result: MatchResult, k: int): State {
    st.(book := SettleField(p.form, p.core, st.book, result, k).0)
  }

  // ---- Snapshots -----------------------------------------------------------

  const LADDER_SNAPSHOT_VERSION := 1

  datatype LadderSnapshot = LadderSnapshot(version: nat, ratings: Ladder)

  function Snapshot(st: State): LadderSnapshot { LadderSnapshot(LADDER_SNAPSHOT_VERSION, st.book.ratings) }

  /** `None` is a schema version mismatch. */
  function Restored(s: LadderSnapshot): Option<State> {
    if s.version != LADDER_SNAPSHOT_VERSION then None else Some(Initial(s.ratings))
  }

  /**
   A restore reproduces every rating and nothing else, a result of a match formed before it settles
   nothing, and any other schema version is refused.
   */
  lemma RestoreExact(p: Params, st: State, result: MatchResult, k: int, other: LadderSnapshot)
    ensures Restored(other).None? <==> other.version != 1
    ensures Restored(Snapshot(st)).Some?
    ensures var after := Restored(Snapshot(st)).value;
      && after.book.ratings == st.book.ratings && after.book.pending == map[]
      && after.human == after.agent == after.mixed == [] && after.nextSeq == after.evictions == 0
      && ApplyDuel(p, after, result, k) == after && ApplyField(p, after, result, k) == after
  {}

  // ---- The class -----------------------------------------------------------

  class Matchmaker {
    const p: Params
    var human: seq<Seated>
    var agent: seq<Seated>
    var mixed: seq<Seated>
    var ratings: Ladder
    var pending: Registry
    var nextPendingSeq: nat
    var rankedEvictions: nat

    ghost predicate Valid() { p.form.seats >= 2 }

    ghost function Value(): State
      reads this
    {
      State(human, agent, mixed, Book(ratings, pending), nextPendingSeq, rankedEvictions)
    }

    constructor (p: Params)
      requires p.form.seats >= 2
      ensures Valid() && this.p == p && Value() == Initial(map[])
    {
      this.p := p;
      human, agent, mixed := [], [], [];
      ratings, pending := map[], map[];
      nextPendingSeq, rankedEvictions := 0, 0;
    }

    /** `from_snapshot`. */
    static method FromSnapshot(p: Params, s: LadderSnapshot) returns (r: Option<Matchmaker>)
      requires p.form.seats >= 2
      ensures r.Some? <==> Restored(s).Some?
      ensures r.Some? ==> fresh(r.value) && r.value.Valid() && r.value.p == p && r.value.Value() == Restored(s).value
    {
      if s.version != LADDER_SNAPSHOT_VERSION {
        return None;
      }
      var mm := new Matchmaker(p);
      mm.ratings := s.ratings;
      return Some(mm);
    }

    method TakeSnapshot() returns (s: LadderSnapshot)
      ensures s == Snapshot(Value())
    {
      s := LadderSnapshot(LADDER_SNAPSHOT_VERSION, ratings);
    }

    /** The locked section of `join`. */
    method EnterQueue(mode: Mode, x: Seated) returns (roster: Option<seq<Seated>>)
      requires Valid()
      modifies this
      ensures (Value(), roster) == JoinLocked(p, old(Value()), mode, x)
    {
      if mode.AgentMode? && x.agentId !in ratings {
        ratings := ratings[x.agentId := p.form.defaultRating];
      }
      var queue := match mode case HumanMode => human case AgentMode => agent case MixedMode => mixed;
      queue := queue + [x];
      roster, queue := TryForm(p.form, mode, ratings, queue);
      match mode {
        case HumanMode => human := queue;
        case AgentMode => agent := queue;
        case MixedMode => mixed := queue;
      }
    }

    /** The oldest registration, scanning the registry. */
    method FindOldest() returns (id: MatchId)
      requires pending != map[]
      ensures id == Oldest(pending)
    {
      var left := pending.Keys;
      var first :| first in left;
      id := first;
      left := left - {first};
      while left != {}
        invariant left <= pending.Keys && id in pending
        invariant forall other :: other in pending && other !in left ==> Precedes(pending, id, other)
        decreases |left|
      {
        var other :| other in left;
        if Precedes(pending, other, id) {
          id := other;
        }
        left := left - {other};
      }
      OldestUnique(pending, id, Oldest(pending));
    }

    /** The registration in `build`. */
    method RegisterMatch(id: MatchId, agents: seq<string>)
      modifies this
      ensures Value() == Register(p, old(Value()), agents, id)
    {
      var seqNo := nextPendingSeq;
      nextPendingSeq := SaturatingInc(nextPendingSeq);
      pending := pending[id := Pending(seqNo, agents)];
      if p.cap != 0 && |pending| > p.cap {
        var oldest := FindOldest();
        pending := pending - {oldest};
        rankedEvictions := SaturatingInc(rankedEvictions);
      }
    }

    /** `apply_ranked_result`: validate, then commit. */
    method ApplyRankedResult(result: MatchResult, k: int) returns (r: Option<(int, int)>)
      modifies this
      ensures Value() == ApplyDuel(p, old(Value()), result, k)
      ensures r == SettleDuel(p.form, p.core, old(Value()).book, result, k).1
    {
      if |result.outcomes| != 2 {
        return None;
      }
      var oa, ob := result.outcomes[0], result.outcomes[1];
      if oa.seat == ob.seat {
        return None;
      }
      if result.matchId !in pending {
        return None;
      }
      var agents := pending[result.matchId].agents;
      if |agents| != 2 {
        return None;
      }
      if oa.seat >= |agents| || ob.seat >= |agents| {
        return None;
      }
      var a, b := agents[oa.seat], agents[ob.seat];
      var ra, rb := RatingOf(p.form, ratings, a), RatingOf(p.form, ratings, b);
      var delta := p.core.duel(result, ra, rb, k);
      if delta.None? {
        return None;
      }
      pending := pending - {result.matchId};
      ratings := ratings[a := SaturatingAdd(ra, delta.value.0)];
      ratings := ratings[b := SaturatingAdd(rb, delta.value.1)];
      return delta;
    }

    /** `apply_ranked_field_result`: validate, then commit. */
    method ApplyRankedFieldResult(result: MatchResult, k: int) returns (r: Option<seq<int>>)
      modifies this
      ensures Value() == ApplyField(p, old(Value()), result, k)
      ensures r == SettleField(p.form, p.core, old(Value()).book, result, k).1
    {
      if result.matchId !in pending {
        return None;
      }
      var n := |pending[result.matchId].agents|;
      if |result.outcomes| != n {
        return None;
      }
      var mapped := MapSeats(p.form, ratings, pending[result.matchId].agents, result.outcomes);
      if mapped.None? {
        return None;
      }
      var (agents, bases) := mapped.value;
      var deltas := p.core.field(result, bases, k);
      if deltas.None? {
        return None;
      }
      pending := pending - {result.matchId};
      ratings := WriteField(ratings, agents, bases, deltas.value);
      return deltas;
    }
  }

  /** Maps each outcome to its seat's agent and rating, refusing an out-of-roster or repeated seat. */
  method MapSeats(p: FormParams, ratings: Ladder, roster: seq<string>, outcomes: seq<SeatOutcome>)
    returns (r: Option<(seq<string>, seq<int>)>)
    requires |outcomes| == |roster|
    ensures r.Some? <==> SeatsPermute(outcomes, |roster|)
    ensures r.Some? ==> r.value.0 == AgentsBySeat(roster, outcomes) && r.value.1 == RatingsOf(p, ratings, r.value.0)
  {
    var n := |roster|;
    var seen := new bool[n](_ => false);
    var agents: seq<string> := [];
    var bases: seq<int> := [];
    for i := 0 to |outcomes|
      invariant |agents| == |bases| == i
      invariant forall j :: 0 <= j < i ==> outcomes[j].seat < n && agents[j] == roster[outcomes[j].seat]
      invariant forall j :: 0 <= j < i ==> bases[j] == RatingOf(p, ratings, agents[j])
      invariant forall j, l :: 0 <= j < l < i ==> outcomes[j].seat != outcomes[l].seat
      invariant forall s :: 0 <= s < n ==> (seen[s] <==> exists j :: 0 <= j < i && outcomes[j].seat == s)
    {
      var idx := outcomes[i].seat;
      if idx >= n {
        return None;
      }
      if seen[idx] {
        return None;
      }
      seen[idx] := true;
      agents := agents + [roster[idx]];
      bases := bases + [RatingOf(p, ratings, roster[idx])];
    }
    assert agents == AgentsBySeat(roster, outcomes);
    assert bases == RatingsOf(p, ratings, agents);
    return Some((agents, bases));
  }

  method WriteField(ratings: Ladder, agents: seq<string>, bases: seq<int>, deltas: seq<int>) returns (r: Ladder)
    requires |agents| == |bases|
    ensures r == WriteAll(ratings, agents, bases, deltas, ZipLength(|deltas|, |agents|))
  {
    r := ratings;
    for i := 0 to ZipLength(|deltas|, |agents|)
      invariant r == WriteAll(ratings, agents, bases, deltas, i)
    {
      r := r[agents[i] := SaturatingAdd(bases[i], deltas[i])];
    }
  }
}
