/**
 The agent client's frame loop: what it sends for each observation, over any run of frames and
 external leave calls. The policy's answers and its measured time are parameters of a frame.
 */
module ArenaClient {
  import opened Common

  datatype Phase = Lobby | Starting | Live | Ended
  datatype Observation = Observation(tick: nat, phase: Phase, alive: bool, facing: nat, deadlineMicros: int)

  /** The policy's reply to a live observation, and how long it took. */
  datatype Answer = Answer(leave: Option<string>, intent: Intent, elapsedMicros: int)

  /** A policy's intent, or the passive hold a downed seat answers with. */
  datatype Intent = Chosen(code: nat) | Hold(facing: nat)

  datatype Sent = Act(tick: nat, intent: Intent) | Leave(reason: string)

  datatype Event =
    | Observed(obs: Observation, answer: Answer)
    | Rejected
    | MatchEnd
    | ExternalLeave(reason: string)

  /** The client's fields. */
  datatype State = State(phase: Phase, leftReason: Option<string>, done: bool, forfeits: nat, sent: seq<Sent>)

  const START := State(Lobby, None, false, 0, [])

  /** `leave`: a no-op unless a live match is in progress and not yet left. */
  function Leaves(st: State, reason: string): State {
    if st.done || st.phase != Live || st.leftReason.Some? then st
    else st.(sent := st.sent + [Leave(reason)], leftReason := Some(reason))
  }

  /** `_respond`. */
  function Responds(enforceDeadline: bool, st: State, obs: Observation, answer: Answer): State {
    var seen := st.(phase := obs.phase);
    if st.leftReason.Some? || obs.phase != Live then seen
    else if !obs.alive then seen.(sent := st.sent + [Act(obs.tick, Hold(obs.facing))])
    else if answer.leave.Some? then Leaves(seen, answer.leave.value)
    else if enforceDeadline && answer.elapsedMicros > obs.deadlineMicros then seen.(forfeits := st.forfeits + 1)
    else seen.(sent := st.sent + [Act(obs.tick, answer.intent)])
  }

  /** One inbound frame, as `poll` takes it, or one external leave call. */
  function Handles(enforceDeadline: bool, st: State, ev: Event): State {
    match ev
    case Observed(obs, answer) => Responds(enforceDeadline, st, obs, answer)
    case Rejected => st
    case MatchEnd => st.(done := true)
    case ExternalLeave(reason) => Leaves(st, reason)
  }

  function Run(enforceDeadline: bool, evs: seq<Event>): State {
    if evs == [] then START
    else Handles(enforceDeadline, Run(enforceDeadline, evs[..|evs| - 1]), evs[|evs| - 1])
  }

  // ---- The trace -----------------------------------------------------------

  /** A live observation put to a client that has not left, its answer, and whether the match had ended. */
  datatype Query = Query(obs: Observation, answer: Answer, ended: bool)

  /** Every such observation, in order. */
  function Asked(enforceDeadline: bool, evs: seq<Event>): seq<Query> {
    if evs == [] then [] else
      var n := |evs| - 1;
      Asked(enforceDeadline, evs[..n]) + Asks(Run(enforceDeadline, evs[..n]), evs[n])
  }

  /** The observation, if any, that this event puts to a client in this state. */
  function Asks(st: State, ev: Event): seq<Query> {
    if ev.Observed? && ev.obs.phase == Live && st.leftReason.None? then [Query(ev.obs, ev.answer, st.done)] else []
  }

  /** A leave asked for once the match is over: `leave` then sends nothing. */
  predicate Moot(q: Query) { q.obs.alive && q.answer.leave.Some? && q.ended }

  /** What one such observation calls for: nothing when it is moot or its answer came too late. */
  function Due(enforceDeadline: bool, q: Query): Option<Sent> {
    if !q.obs.alive then Some(Act(q.obs.tick, Hold(q.obs.facing)))
    else if q.answer.leave.Some? then (if q.ended then None else Some(Leave(q.answer.leave.value)))
    else if enforceDeadline && q.answer.elapsedMicros > q.obs.deadlineMicros then None
    else Some(Act(q.obs.tick, q.answer.intent))
  }

  function AllDue(enforceDeadline: bool, qs: seq<Query>): seq<Sent> {
    if qs == [] then [] else
      var earlier := AllDue(enforceDeadline, qs[..|qs| - 1]);
      match Due(enforceDeadline, qs[|qs| - 1]) case None => earlier case Some(s) => earlier + [s]
  }

  function CountMoot(qs: seq<Query>): nat {
    if qs == [] then 0 else CountMoot(qs[..|qs| - 1]) + (if Moot(qs[|qs| - 1]) then 1 else 0)
  }

  /** How the frames sent come from the observations asked, up to one leave from outside. */
  ghost predicate Trace(enforceDeadline: bool, st: State, qs: seq<Query>) {
    var due := AllDue(enforceDeadline, qs);
    && (forall i :: 0 <= i < |st.sent| - 1 ==> st.sent[i].Act?)
    && (st.leftReason.None? ==> st.sent == due && (st.sent != [] ==> st.sent[|st.sent| - 1].Act?))
    && (st.leftReason.Some? ==>
        st.sent != [] && st.sent[|st.sent| - 1] == Leave(st.leftReason.value)
        && (st.sent == due || st.sent == due + [Leave(st.leftReason.value)]))
    && |due| + st.forfeits + CountMoot(qs) == |qs|
    && (!enforceDeadline ==> st.forfeits == 0)
  }

  lemma AskedSnoc(enforceDeadline: bool, qs: seq<Query>, q: Query)
    ensures AllDue(enforceDeadline, qs + [q])
      == match Due(enforceDeadline, q)
         case None => AllDue(enforceDeadline, qs)
         case Some(s) => AllDue(enforceDeadline, qs) + [s]
    ensures CountMoot(qs + [q]) == CountMoot(qs) + (if Moot(q) then 1 else 0)
  {
    assert (qs + [q])[..|qs|] == qs;
  }

  lemma TraceLeave(enforceDeadline: bool, st: State, qs: seq<Query>, reason: string)
    requires Trace(enforceDeadline, st, qs)
    ensures Trace(enforceDeadline, Leaves(st, reason), qs)
  {
    hide AllDue, CountMoot;
  }

  /** Answering a live observation of a match not left. */
  lemma TraceRespond(enforceDeadline: bool, st: State, qs: seq<Query>, obs: Observation, answer: Answer)
    requires Trace(enforceDeadline, st, qs) && obs.phase == Live && st.leftReason.None?
    ensures Trace(enforceDeadline, Responds(enforceDeadline, st, obs, answer), qs + [Query(obs, answer, st.done)])
  {
    AskedSnoc(enforceDeadline, qs, Query(obs, answer, st.done));
    hide AllDue, CountMoot;
  }

  lemma TraceStep(enforceDeadline: bool, st: State, qs: seq<Query>, ev: Event)
    requires Trace(enforceDeadline, st, qs)
    ensures Trace(enforceDeadline, Handles(enforceDeadline, st, ev), qs + Asks(st, ev))
  {
    assert qs + [] == qs;
    hide AllDue, CountMoot;
    if ev.ExternalLeave? {
      TraceLeave(enforceDeadline, st, qs, ev.reason);
    } else if Asks(st, ev) != [] {
      TraceRespond(enforceDeadline, st, qs, ev.obs, ev.answer);
    }
  }

  /**
   The client's trace, over every run: it acts only on live observations of a match it has not
   left, echoing their tick; it sends nothing after a leave; and every such observation draws
   exactly one frame or one forfeit, and always a frame when deadlines are not enforced, except
   that a leave asked for after the end draws nothing.
   */
  lemma {:induction false} ClientTrace(enforceDeadline: bool, evs: seq<Event>)
    ensures Trace(enforceDeadline, Run(enforceDeadline, evs), Asked(enforceDeadline, evs))
  {
    if evs != [] {
      var n := |evs| - 1;
      ClientTrace(enforceDeadline, evs[..n]);
      TraceStep(enforceDeadline, Run(enforceDeadline, evs[..n]), Asked(enforceDeadline, evs[..n]), evs[n]);
    }
  }

  /** The drivers stop polling a seat once its match has ended. */
  ghost predicate StopsAtEnd(evs: seq<Event>) {
    forall i, j :: 0 <= i < j < |evs| && evs[i].MatchEnd? ==> !evs[j].Observed?
  }

  lemma StopsPrefix(enforceDeadline: bool, evs: seq<Event>, n: nat)
    requires StopsAtEnd(evs) && n < |evs|
    ensures StopsAtEnd(evs[..n]) && (evs[n].Observed? ==> !Run(enforceDeadline, evs[..n]).done)
  {
    hide Run;
    DoneExactly(enforceDeadline, evs[..n]);
  }

  /** Under such a driver nothing is moot: one frame or one forfeit for each observation. */
  lemma {:induction false} NothingMoot(enforceDeadline: bool, evs: seq<Event>)
    requires StopsAtEnd(evs)
    ensures CountMoot(Asked(enforceDeadline, evs)) == 0
  {
    hide Run, AllDue, CountMoot, StopsAtEnd;
    if evs == [] {
      NoneAsked();
    } else {
      var n := |evs| - 1;
      StopsPrefix(enforceDeadline, evs, n);
      NothingMoot(enforceDeadline, evs[..n]);
      MootSnoc(Asked(enforceDeadline, evs[..n]), Run(enforceDeadline, evs[..n]), evs[n]);
    }
  }

  lemma NoneAsked()
    ensures CountMoot([]) == 0
  {}

  lemma MootSnoc(qs: seq<Query>, st: State, ev: Event)
    requires ev.Observed? ==> !st.done
    ensures CountMoot(qs + Asks(st, ev)) == CountMoot(qs)
  {
    if Asks(st, ev) == [] {
      assert qs + [] == qs;
    } else {
      AskedSnoc(false, qs, Query(ev.obs, ev.answer, st.done));
    }
  }

  // ---- Phases, ends and leaves ---------------------------------------------

  /** The client is done exactly when a match end has arrived. */
  lemma {:induction false} DoneExactly(enforceDeadline: bool, evs: seq<Event>)
    ensures Run(enforceDeadline, evs).done <==> exists i :: 0 <= i < |evs| && evs[i].MatchEnd?
  {
    if evs != [] {
      var n := |evs| - 1;
      DoneExactly(enforceDeadline, evs[..n]);
      assert forall i :: 0 <= i < n ==> evs[..n][i] == evs[i];
    }
  }

  /** The phase is that of the last observation, and the lobby before any. */
  lemma {:induction false} PhaseExactly(enforceDeadline: bool, evs: seq<Event>, i: nat)
    requires i <= |evs| && forall j :: i <= j < |evs| ==> !evs[j].Observed?
    requires i > 0 ==> evs[i - 1].Observed?
    ensures Run(enforceDeadline, evs).phase == if i == 0 then Lobby else evs[i - 1].obs.phase
    decreases |evs|
  {
    if i < |evs| {
      PhaseExactly(enforceDeadline, evs[..|evs| - 1], i);
    }
  }

  /**
   A leave from outside sends its frame exactly in a live match that has neither ended nor been left,
   and otherwise changes nothing; a match end and a rejection send nothing.
   */
  lemma LeaveExactly(enforceDeadline: bool, evs: seq<Event>, reason: string)
    ensures var st, next := Run(enforceDeadline, evs), Run(enforceDeadline, evs + [ExternalLeave(reason)]);
      if st.phase == Live && !st.done && st.leftReason.None?
      then next == st.(sent := st.sent + [Leave(reason)], leftReason := Some(reason))
      else next == st
    ensures Run(enforceDeadline, evs + [MatchEnd]) == Run(enforceDeadline, evs).(done := true)
    ensures Run(enforceDeadline, evs + [Rejected]) == Run(enforceDeadline, evs)
  {
    assert (evs + [ExternalLeave(reason)])[..|evs|] == evs;
    assert (evs + [MatchEnd])[..|evs|] == evs && (evs + [Rejected])[..|evs|] == evs;
  }

  // ---- The class -----------------------------------------------------------

  class Client {
    const enforceDeadline: bool
    var phase: Phase
    var leftReason: Option<string>
    var done: bool
    var forfeits: nat
    var sent: seq<Sent>

    ghost function Value(): State
      reads this
    {
      State(phase, leftReason, done, forfeits, sent)
    }

    constructor (enforceDeadline: bool)
      ensures this.enforceDeadline == enforceDeadline && Value() == START
    {
      this.enforceDeadline := enforceDeadline;
      phase, leftReason, done, forfeits, sent := Lobby, None, false, 0, [];
    }

    method LeaveMatch(reason: string)
      modifies this
      ensures Value() == Leaves(old(Value()), reason)
    {
      if done || phase != Live || leftReason.Some? {
        return;
      }
      sent := sent + [Leave(reason)];
      leftReason := Some(reason);
    }

    method Send(obs: Observation, intent: Intent)
      modifies this`sent
      ensures sent == old(sent) + [Act(obs.tick, intent)]
    {
      sent := sent + [Act(obs.tick, intent)];
    }

    method Respond(obs: Observation, answer: Answer)
      modifies this
      ensures Value() == Responds(enforceDeadline, old(Value()), obs, answer)
    {
      phase := obs.phase;
      if leftReason.Some? {
        return;
      }
      if obs.phase != Live {
        return;
      }
      if !obs.alive {
        Send(obs, Hold(obs.facing));
        return;
      }
      if answer.leave.Some? {
        LeaveMatch(answer.leave.value);
        return;
      }
      if enforceDeadline && answer.elapsedMicros > obs.deadlineMicros {
        forfeits := forfeits + 1;
        return;
      }
      Send(obs, answer.intent);
    }

    /** `poll` on one decoded frame, or a leave from outside it. */
    method Handle(ev: Event)
      modifies this
      ensures Value() == Handles(enforceDeadline, old(Value()), ev)
    {
      match ev
      case Observed(obs, answer) => Respond(obs, answer);
      case Rejected =>
      case MatchEnd => done := true;
      case ExternalLeave(reason) => LeaveMatch(reason);
    }
  }
}
