# Blackfield: a verified model of its protocol cores

Blackfield builds game worlds with a chain of agents and lets agents fight in them for a rating.
This project models six of its cores in Dafny and proves what each is for, over every input,
every schedule or every reachable state.

| component | modules |
|---|---|
| Matchmaker and ranked ladder: queues, selection, shuffled teams, bounded registry, two settle routes, snapshots | `Selection`, `Formation`, `Settlement`, `Matchmaking`, `MatchRuns`, `MatchRunFacts`, `MatchRosters`, `Teams` |
| Triangle-budget resolver, and the gate that re-derives its verdict | `LodResolve`, `LodOutcome`, `BudgetGate` |
| Move clamp, integer root, digest pre-images | `MachineInts`, `MoveClamp`, `DigestPreimage`, `DigestLayout` |
| Spectator feed | `SpectatorRing` |
| USD string literals and the structural layer scanner | `UsdText`, `PrimScanner`, `ScanLocality`, `LayerTokens`, `PrimTrees` |
| Revision loop, batch settlement transports, client and gateway protocol | `RevisionLoop`, `BatchTransport`, `Gateway`, `ArenaClient` |

`Common` holds the shared option type. `dafny verify dfyconfig.toml` checks the whole project.

## How the model is laid out

Code that updates fields or runs loops is a class or a method, proved equal to a specification
function of its old state; the theorems are about those functions. The main ones:

- **The ladder.** `MatchRuns.Step` is one atomic section: an admitted join, the separately locked
  registration of a formed ranked match, or a settlement by either route. `LadderExact` gives the
  sum of all ratings after *any* interleaving, with no hypothesis on ids, ranges or deltas, as starting
  sum + seed ratings + the drift of each settlement. `LadderConserved` follows where rosters hold distinct
  ids and nothing saturates, and `ConservedAcrossRestarts` carries it through snapshots.
- **The resolver.** `ResolveOptimal` is an exchange argument: after k passes no legal assignment of
  at most k steps has a smaller total. `GateSound` shows that whatever the validator accepts comes from a
  legal assignment, and `ResolvedVerdict` says of every `_resolve` outcome exactly when it is accepted.
- **The scanner.** A printed layer is a list of tokens. `ScanPlays` reduces the character scan to a
  token machine; `ScannerInvertsPrinter` then recovers the preorder of every prim tree.
  `ScanLocal` needs no printed form at all: in arbitrary text the scan depends only on what lies ahead,
  and `DeclMeans` with `DeclFound` says exactly what counts as a declaration there.

Beside each specification function stands a statement of its answer in other terms, so that the theorems
do not lean on one another's definitions: who is seated in ratings, when a result settles, whose seat a delta
reaches, the order of every shedding pass, which message a full ring loses, every byte of a digest.

## Where the code and its comments differ

The model follows the code.

- The clamp's comment (`arena/proto/src/lib.rs:445-447`) promises a magnitude of at most 1000. The
  code divides by the floored root, so (1000, 1) comes back unchanged and (1001, 2) becomes
  (1000, 1). `ClampBound` proves the bound that does hold, `ClampFixedPoints` exactly which requests
  pass unchanged, `DocumentedCapExactly` when a scaled request meets the documented cap, in the
  remainders of its axes, and `DocumentedCapMet` a simpler sufficient condition.
- The resolver's comments (`agents/optimization/optimization.py:47-51`, 135-136) say that the 256-pass
  cap never trips and that over budget means every layer is at its floor. `ExhaustedExactly` shows that a
  run ending over budget has every layer at its floor if and only if there are at most 85 of them, and
  that the cap trips otherwise; `PassCapTooSmall` is such a world of 86 equal layers, and it would have
  fitted. `OverBudgetExactly` says what over budget means for any number of layers.
- The validator re-derives the optimizer's totals from one figure per specialist, so it can refuse an
  honest shed when a specialist has two layers (`TwoLayersRefused`). `ResolvedVerdict` states for all layers when
  it accepts; `GateComplete` is the case of one layer per specialist.
- `join` does not refuse a second join by the same id, so an agent can be matched with itself
  (`SameIdPairs`), and its duel creates or destroys rating (`SelfMatchDrifts`). `SelfMatchRun` is a whole
  run that does so from an empty ladder. `DuelSettles` and `FieldConserves` say for each route exactly
  when the sum is kept.
- The digests cast lengths to 32 bits. `JoinCollision` and `ReplayCollision` are values beyond that length
  with equal pre-images.
- `mesh/coordinator/src/meter.rs:139-142` says that nothing landed when a batch fails transiently. With the
  default batch call everything before the fault has landed: `TransientAfterLanding` is such a call,
  `NothingLanded` says exactly when the comment is right, and `RetryCompletes` why it does no harm.
- `poll` answers an observation that arrives after the end of a match; only its drivers stop polling. The
  client model has no such guard either, and `NothingMoot` states what the drivers' rule adds.
- An empty literal directly followed by another quote opens a long string. `LiteralPassed` states
  exactly when a literal is stepped over.

## Model

| member | source | states |
|---|---|---|
| `MatchRuns.LadderExact` | arena/match/src/lib.rs:738-753 | over every interleaving of joins, registrations and settles, and whatever the deltas, the sum of ratings is the starting sum, plus the seed rating per newly seeded agent, plus the drift of each committed settlement; no agent ever leaves the ladder |
| `MatchRuns.LadderConserved` | arena/match/src/lib.rs:920-958 | with zero-sum core deltas, distinct ids on settled rosters and no saturation, the sum is conserved up to newly seeded agents, over every interleaving |
| `MatchRuns.ConservedAcrossRestarts` | arena/match/src/lib.rs:699-713 | the same through any number of snapshots and restores |
| `MatchRuns.BookStep` | arena/match/src/lib.rs:738-753 | every queued, forming or registered ranked agent is in the rating book, kept by every step |
| `MatchRuns.SameIdPairs` | arena/match/src/lib.rs:726-757 | two joins by one id form a match of that agent against itself |
| `MatchRuns.SelfMatchDrifts` | arena/match/src/lib.rs:920-958 | a duel of an agent with itself moves the sum by exactly what the second seat's write landed |
| `MatchRuns.SelfMatchRun` | arena/match/src/lib.rs:726-757 | conservation fails on a reachable state: two joins of one id, the registration and a duel with zero-sum deltas leave an empty ladder's only agent above its seed rating |
| `Settlement.DriftExact` | arena/match/src/lib.rs:1023-1026 | the exact change of the ladder's sum when a field of deltas is written in order, repeated agents and saturation included |
| `Settlement.CleanDrift` | arena/match/src/lib.rs:1023-1026 | with distinct ids and no saturation that change is the sum of the deltas |
| `Settlement.DriftDiscards` | arena/match/src/lib.rs:1023-1026 | without saturation it is the sum of the deltas less those that a later seat of the same agent overwrites |
| `Settlement.FieldSettles` | arena/match/src/lib.rs:986-1028 | a field result either leaves the book alone or consumes exactly the one registration whose seats its outcomes permute, moves the sum by the stated drift, and keeps every registered agent booked |
| `Settlement.FieldConserves` | arena/match/src/lib.rs:986-1028 | with zero-sum deltas and in-range ratings a committed field result keeps the sum if and only if the overwritten deltas sum to nothing |
| `Settlement.FieldSettlesExactly` | arena/match/src/lib.rs:986-1028 | a field result of a pending match settles if and only if its outcomes name every registered seat once and the core yields deltas for those agents' ratings |
| `Settlement.EachDeltaLands` | arena/match/src/lib.rs:986-1028 | each delta lands on the agent of that outcome's seat, the last one where an id repeats, and nobody off the roster moves |
| `Settlement.DuelSettles` | arena/match/src/lib.rs:920-958 | the same for the one-against-one route; with in-range ratings the sum is kept if and only if the two seats are different agents or nothing moves |
| `Settlement.DuelSettlesExactly` | arena/match/src/lib.rs:920-958 | a one-against-one result settles if and only if it names the two seats of a pending two-seat match and the core yields deltas; each delta lands on its seat's agent |
| `Settlement.SaturatingNearest` | arena/match/src/lib.rs:952-957 | a saturated rating is the i32 nearest to the true sum |
| `Settlement.RoutesAgree` | arena/match/src/lib.rs:920-1028 | on a two-seat registration the two routes commit or refuse together and leave the same book, if the core deltas agree |
| `Matchmaking.Matchmaker.ApplyRankedResult` | arena/match/src/lib.rs:920-958 | the checks in the code's order, then the commit: the new state and the returned deltas |
| `Matchmaking.Matchmaker.ApplyRankedFieldResult` | arena/match/src/lib.rs:986-1028 | the same for the field route |
| `Matchmaking.MapSeats` | arena/match/src/lib.rs:1004-1015 | the seen-array pass accepts if and only if the outcome seats are a permutation of the roster, and yields agents and ratings in outcome order |
| `Matchmaking.WriteField` | arena/match/src/lib.rs:1023-1026 | the write loop is the field write the drift lemmas are about |
| `MatchRunFacts.RegistryFacts` | arena/match/src/lib.rs:834-853 | over every run, pending stays within a non-zero cap, registered = pending + settled + evicted, and no id settles twice or after eviction |
| `MatchRunFacts.RegistryRun` | arena/match/src/lib.rs:834-853 | the registry invariant behind it, with sequence stamps in registration order, holds at every reachable state |
| `MatchRunFacts.OnlyRegisteredSettle` | arena/match/src/lib.rs:920-1028 | over every run only a match registered in it settles, so a result from before a restart never does |
| `MatchRosters.RegistrationSeats` | arena/match/src/lib.rs:820-835 | a registration holds the formed roster's ids in seat order, and touches no other |
| `MatchRosters.RosterRun` | arena/match/src/lib.rs:820-835 | over every run each pending registration is a formed ranked match, seat by seat |
| `MatchRosters.DeltaReachesSeat` | arena/match/src/lib.rs:986-1028 | over every run the i-th delta of a committed field result lands on the agent who sat, in a formed ranked match, where its i-th outcome points |
| `MatchRosters.DuelReachesSeat` | arena/match/src/lib.rs:920-958 | the same for the one-against-one route |
| `MatchRosters.FieldEventSettles` | arena/match/src/lib.rs:986-1028 | a pending match is settled by a field result exactly when the result fits it; otherwise nothing changes |
| `MatchRosters.DuelEventSettles` | arena/match/src/lib.rs:920-958 | the same for the one-against-one route |
| `MatchRosters.LadderMembers` | arena/match/src/lib.rs:738-740 | after any run the ladder holds exactly the starting agents and those admitted to ranked play |
| `MatchRosters.JoinSeeds` | arena/match/src/lib.rs:738-740 | a ranked join adds its id at the seed rating if it is new; no join changes any other rating |
| `MatchRunFacts.EvictsOldest` | arena/match/src/lib.rs:834-853 | a registration evicts if and only if a non-zero cap is exceeded, and then only a match after which `cap` still pending ones were registered; past 2^64 - 1 registrations, where stamps saturate, the lowest id among those goes first |
| `Matchmaking.Matchmaker.RegisterMatch` | arena/match/src/lib.rs:834-853 | the re-locked registration with its eviction |
| `Matchmaking.Matchmaker.FindOldest` | arena/match/src/lib.rs:847 | scanning the registry finds its oldest entry |
| `MatchRunFacts.BoundedWaiting` | arena/match/src/lib.rs:1050-1119 | the agent at index i of a ranked pool of length n is seated within (i + 2) * seats - n further ranked joins, whatever the ratings, tolerance, settles and other joins in between |
| `MatchRunFacts.EveryJoinInOnePlace` | arena/match/src/lib.rs:726-757 | over every run each admitted join is in exactly one place, a queue or one roster; queue shapes and rosters stay legal |
| `Formation.JoinKeepsQueue` | arena/match/src/lib.rs:1050-1076 | every join keeps the queue's shape (human: all human, under a match; ranked: all agents, under two matches; mixed: under a match or single-kind), and a formed roster passes the composition assertion at full size |
| `Formation.MixedJoin` | arena/match/src/lib.rs:1126-1155 | a formed mixed match holds both kinds and leaves a short or single-kind queue |
| `Formation.RankedPicksNearest` | arena/match/src/lib.rs:1101-1119 | ranked picks are the longest-waiting agent and exactly its nearest others by (rating gap, arrival) |
| `Formation.RankedWaits` | arena/match/src/lib.rs:1101-1119 | a full pool waits if and only if it is under two matches and some nearest pick is out of tolerance |
| `Formation.RankedFormsExactly` | arena/match/src/lib.rs:1101-1119 | in ratings: the ranked queue forms a match if and only if it holds one and either two matches' worth wait or a match's worth are rated within the tolerance of the longest-waiting agent, above or below |
| `Formation.RankedSeatsNearest` | arena/match/src/lib.rs:1101-1119 | in ratings: the longest-waiting agent is seated, and everyone seated is no further from its rating than anyone left, on either side, equal distance going to the earlier arrival |
| `Formation.HumanFormsExactly` | arena/match/src/lib.rs:1050-1076 | the human queue forms a match if and only if it holds one, of its first arrivals in order |
| `Formation.MixedPicksGood` | arena/match/src/lib.rs:1126-1143 | no pick if and only if the queue is single-kind; else the earliest of each kind, then arrivals in order, to full size |
| `Formation.MixedFormsExactly` | arena/match/src/lib.rs:1050-1076 | the mixed queue forms a match if and only if it holds one's worth and both kinds: the first of each kind, then the earliest arrivals |
| `Formation.CompositionExactly` | arena/match/src/lib.rs:1147-1155 | a human match is all human, a ranked one all agents, a mixed one neither, and none is empty |
| `Formation.SelectMixed` | arena/match/src/lib.rs:1126-1143 | the fill loop computes those picks |
| `Formation.TryForm` | arena/match/src/lib.rs:1050-1076 | sorting, removing by index from the back and reversing yields the picked subsequence in arrival order and leaves the rest |
| `Selection.RemovePicks` | arena/match/src/lib.rs:1069-1075 | descending removal plus reversal is the picked subsequence and its complement |
| `Selection.TakenAndLeft` | arena/match/src/lib.rs:1069-1075 | picked and left partition the queue as a multiset, with the right sizes |
| `Selection.ChosenPlace` | arena/match/src/lib.rs:1069-1075 | each picked entry sits in the roster at the number of picks before it |
| `Selection.RestPlace` | arena/match/src/lib.rs:1069-1075 | each entry left moves up by exactly the number of picks before it |
| `Matchmaking.Matchmaker.EnterQueue` | arena/match/src/lib.rs:733-752 | the locked section of `join`: seeding, queueing, forming |
| `Matchmaking.Matchmaker.FromSnapshot` | arena/match/src/lib.rs:699-713 | restores the ratings and nothing else, and refuses another schema version |
| `Matchmaking.Matchmaker.TakeSnapshot` | arena/match/src/lib.rs:893-896 | captures the ratings under the current version |
| `Teams.AssignTeams` | arena/match/src/lib.rs:444-460 | whatever the draws, every team gets exactly `team_size` seats; free-for-all is the identity; otherwise the labels are the Fisher-Yates shuffle of the balanced ones |
| `Teams.Shuffle` | arena/match/src/lib.rs:455-458 | the in-place loop computes that shuffle |
| `Teams.ShuffleReaches` | arena/match/src/lib.rs:455-458 | every arrangement of the labels is reached by some draws |
| `Teams.ShuffleInjective` | arena/match/src/lib.rs:455-458 | different draws arrange distinct entries differently, so each arrangement comes from exactly one choice |
| `Teams.LabelsBalanced` | arena/match/src/lib.rs:449-450 | each label occurs `team_size` times before the shuffle |
| `SpectatorRing.RingRefinesHistory` | arena/match/src/lib.rs:1274-1288 | over every schedule, published = what left the ring, in order, then the ring; received + dropped + buffered = published; the ring keeps its capacity; the newest message is buffered unless received |
| `SpectatorRing.RingLoss` | arena/match/src/lib.rs:1280-1284 | over every schedule a message is lost only once the message a whole capacity later is published |
| `SpectatorRing.LosslessExactly` | arena/match/src/lib.rs:1280-1284 | a spectator loses nothing if and only if it never trails the publisher by more than its capacity |
| `SpectatorRing.PublishEffect` | arena/match/src/lib.rs:1280-1284 | after any schedule a publish sheds the oldest message exactly from a full ring |
| `SpectatorRing.ReceiveEffect` | arena/match/src/lib.rs:1182-1186 | after any schedule a receive takes the oldest message if there is one |
| `SpectatorRing.Spectator.Recv` | arena/match/src/lib.rs:1182-1186 | pulls the oldest buffered message and keeps the history exact |
| `SpectatorRing.Spectator.Deliver` | arena/match/src/lib.rs:1277-1285 | with room, the message is appended and nothing dropped; a full ring sheds its oldest message, counts it, and takes the new one |
| `SpectatorRing.SpectatorFeed.FanOut` | arena/match/src/lib.rs:1274-1288 | every live spectator gets the message exactly once, shedding only from a full ring; every gone one is forgotten untouched |
| `SpectatorRing.SpectatorFeed.Subscribe` | arena/match/src/lib.rs:1235-1248 | live subscribers never exceed the cap; a newcomer is refused only when that many are live |
| `SpectatorRing.SpectatorFeed.Prune` | arena/match/src/lib.rs:1237 | keeps exactly the live ones |
| `LodResolve.ResolveOptimal` | agents/optimization/optimization.py:163-180 | after k passes no legal assignment of at most k steps has a smaller total, and none of fewer steps would have fitted, undoing the last pass included |
| `LodResolve.OverBudgetExactly` | agents/optimization/optimization.py:171-180 | for any number of layers, over budget if and only if no legal assignment of at most 256 steps fits |
| `LodResolve.OverBudgetAtFloor` | agents/optimization/optimization.py:45-52 | with at most 85 shed-able layers, over budget if and only if floor total plus an eighth of the shed-able total exceeds the budget |
| `LodResolve.ExhaustedExactly` | agents/optimization/optimization.py:133-136 | a run ending over budget has every layer at its floor if and only if there are at most 85, and has used up the pass cap otherwise |
| `LodResolve.PassCapTooSmall` | agents/optimization/optimization.py:45-52 | 86 equal layers use up all 256 passes with a layer still above its floor, and are reported over budget although all at their floor would fit |
| `LodOutcome.OrderIndependent` | agents/optimization/optimization.py:149-188 | with distinct paths the outcome does not depend on the order of the prior layers |
| `LodOutcome.ResolvedOptimal` | agents/optimization/optimization.py:124-188 | the optimality and completeness statements for the whole of `_resolve`, whatever the metrics |
| `LodOutcome.ShedOrderMembers` | agents/optimization/optimization.py:154-162 | only positive layers outside the floor set are ever candidates |
| `LodOutcome.ShedOrderSorted` | agents/optimization/optimization.py:154-162 | layers are considered heaviest authored first, then by path, ties in prior order; exactly the positive ones outside the floor set |
| `LodOutcome.ResolvePasses` | agents/optimization/optimization.py:163-188 | pass by pass from no level: each is taken over budget, on the heaviest current contributor, equal ones going to the earlier in that order; they stop when the world fits, nothing is left, or at the cap |
| `LodOutcome.TieBreak` | agents/optimization/optimization.py:172-180 | equal current contributions: the heavier authored layer is shed, then the smaller path |
| `LodOutcome.DirectivesExact` | agents/optimization/optimization.py:182-187 | the directives are exactly the layers shed, in that order, each with its own specialist, path, triangles and level |
| `LodOutcome.AuthoredTotal` | agents/optimization/optimization.py:182-188 | with no negative metric the authored total is that of all prior layers |
| `LodOutcome.PickHeaviest` | agents/optimization/optimization.py:173-178 | the earliest of the heaviest current contributors below the floor level |
| `LodOutcome.ResolveLevels` | agents/optimization/optimization.py:171-180 | the while loop computes the levels and passes the theorems are about |
| `LodOutcome.Resolve` | agents/optimization/optimization.py:124-188 | totals, passes and directives of the whole function |
| `BudgetGate.GateSound` | agents/validator/validator.py:1143-1196 | with no issue reported, the observed total is the current geometry scaled by some assignment with levels 0..3 and 0 on floor layers, and both flags say whether it exceeds the stated budget |
| `BudgetGate.ResolvedVerdict` | agents/validator/validator.py:1120-1196 | for any prior and current layers, a `_resolve` outcome passes if and only if its authored total is the current geometry's, every layer shed is the current one of its specialist, and no specialist is shed twice |
| `BudgetGate.AssignmentVerdict` | agents/validator/validator.py:1013-1085 | the same for the body of any legal assignment |
| `BudgetGate.TwoLayersRefused` | agents/validator/validator.py:1104-1117 | with two layers of one specialist an honest shed is refused |
| `BudgetGate.GateComplete` | agents/validator/validator.py:1120-1196 | every honest `_resolve` outcome on the current geometry passes, with one layer per specialist |
| `BudgetGate.LegalAssignmentPasses` | agents/validator/validator.py:1013-1085 | with one layer per specialist the body of every legal assignment passes |
| `BudgetGate.BudgetSelfConsistency` | agents/validator/validator.py:1120-1196 | the issue list, in order |
| `BudgetGate.GateReports` | agents/validator/validator.py:1143-1196 | a malformed body is reported alone; otherwise each disagreement if and only if it is there |
| `BudgetGate.LodDirectiveLegality` | agents/validator/validator.py:964-1085 | one issue per illegal directive with the first reason that applies, and which specialists count as shed |
| `BudgetGate.ReasonExactly` | agents/validator/validator.py:1013-1085 | each reason for refusing a directive, if and only if its condition holds and none before it |
| `BudgetGate.AuditReports` | agents/validator/validator.py:1013-1085 | a directive is reported, at its place, if and only if it is refused |
| `BudgetGate.SeenExactly` | agents/validator/validator.py:1066-1085 | a specialist counts as shed if and only if a directive of its was accepted |
| `BudgetGate.OptReductions` | agents/validator/validator.py:949-961 | sum of authored minus effective, or nothing when some figure is missing |
| `BudgetGate.ReductionsExactly` | agents/validator/validator.py:949-961 | there is a sum if and only if every directive has both figures |
| `BudgetGate.SummedPriorTriangles` | agents/validator/validator.py:1088-1101 | sum over the layers that are not the optimizer's |
| `BudgetGate.PriorTrianglesBySpecialist` | agents/validator/validator.py:1104-1117 | the last such layer of each specialist |
| `BudgetGate.BySpecialistLast` | agents/validator/validator.py:1104-1117 | exactly the specialists with a layer, each with its last one's triangles |
| `MoveClamp.IsqrtU64` | arena/proto/src/lib.rs:480-491 | the Newton loop is the floor square root of every u64, without overflow |
| `MoveClamp.Clamped` | arena/proto/src/lib.rs:448-474 | for every i32 pair no operation overflows, and the result is the clamped direction with aim and buttons untouched |
| `MoveClamp.ClampBound` | arena/proto/src/lib.rs:448-474 | squared magnitude at most 1,002,000, floored magnitude at most 1000, no axis lengthened, no sign flipped |
| `MoveClamp.ClampScaled` | arena/proto/src/lib.rs:448-474 | an overlong request is scaled by 1000 over its floored magnitude, each axis rounded toward zero by less than one |
| `MoveClamp.ClampReachesScale` | arena/proto/src/lib.rs:448-474 | so its squared magnitude ends at 997,168 or more |
| `MoveClamp.ClampFixedPoints` | arena/proto/src/lib.rs:448-474 | a request passes unchanged if and only if its squared magnitude is below 1001 squared |
| `MoveClamp.ClampIdempotent` | arena/proto/src/lib.rs:448-474 | clamping twice is clamping once |
| `MoveClamp.DocumentedCapExactly` | arena/proto/src/lib.rs:445-447 | a scaled request meets the documented cap if and only if its scaled axes, less their remainders modulo the root, stay within a thousand roots |
| `MoveClamp.DocumentedCapMet` | arena/proto/src/lib.rs:445-447 | a simple condition under which the documented cap of 1000 is met, exact in the pass-through range |
| `MoveClamp.DocumentedCapExceeded` | arena/proto/src/lib.rs:445-447 | (1000, 1) exceeds it |
| `MoveClamp.DocumentedCapExceededScaled` | arena/proto/src/lib.rs:445-447 | (1001, 2) is scaled and still exceeds it |
| `MoveClamp.PythonTruncDivAgrees` | agents/arena_client/proto.py:78-84 | `_trunc_div` is truncation toward zero for every pair of operands |
| `MoveClamp.PythonClampAgrees` | agents/arena_client/proto.py:92-115 | the Python clamp equals the Rust one |
| `DigestPreimage.ReplayPreimageInjective` | arena/proto/src/lib.rs:1235-1318 | two replay records feed the hash the same bytes if and only if they agree on every field but `tick_hz` and `config.seats`, for lengths below 2^32 |
| `DigestPreimage.JoinPreimageInjective` | arena/proto/src/lib.rs:1505-1514 | the join bytes determine version, agent and nonce, for agent ids below 2^32 bytes and nonces of any length |
| `DigestPreimage.DomainsDisjoint` | arena/proto/src/lib.rs:1505-1514 | no join pre-image is a replay pre-image |
| `DigestPreimage.JoinCollision` | arena/proto/src/lib.rs:1505-1514 | past that bound it fails: exchanging a zero agent id of 2^32 bytes with an empty nonce keeps the bytes |
| `DigestPreimage.ReplayCollision` | arena/proto/src/lib.rs:1235-1318 | likewise every replay record has two variants, differing in who sits where, with equal bytes |
| `DigestPreimage.ActionDelimits` | arena/proto/src/lib.rs:1040-1042 | an action, its button bits included, is read off the front of any stream |
| `DigestPreimage.FeedReplay` | arena/proto/src/lib.rs:1235-1318 | the field-by-field updates absorb exactly that pre-image |
| `DigestPreimage.FeedJoin` | arena/proto/src/lib.rs:1505-1514 | likewise for the join |
| `DigestLayout.ReplayLayout` | arena/proto/src/lib.rs:1254-1310 | the tag, version, match id and seed at fixed offsets, then seats, blockers, pickups, rules, config and ticks in this order |
| `DigestLayout.BigEndianByte` | arena/proto/src/lib.rs:1254-1310 | integers are written most significant byte first |
| `DigestLayout.SeatLayout` | arena/proto/src/lib.rs:1259-1264 | a seat by position |
| `DigestLayout.BlockerLayout` | arena/proto/src/lib.rs:1266-1272 | a blocker by position, with signed coordinates |
| `DigestLayout.PickupLayout` | arena/proto/src/lib.rs:1274-1285 | a pickup by position, with its fixed kind byte |
| `DigestLayout.ActionLayout` | arena/proto/src/lib.rs:1297-1303 | an action by position |
| `DigestLayout.TickLayout` | arena/proto/src/lib.rs:1294-1316 | a tick: its number, the actions, the forfeiting seats |
| `DigestLayout.ConfigLayout` | arena/proto/src/lib.rs:1290-1292 | the committed config by position |
| `DigestLayout.ElementInPlace` | arena/proto/src/lib.rs:1258-1316 | the elements of a vector follow one another in order |
| `DigestLayout.ButtonBits` | arena/proto/src/lib.rs:1040-1042 | fire, jump, ability and reload from the lowest bit up, and no other bit |
| `DigestLayout.JoinLayout` | arena/proto/src/lib.rs:1505-1514 | the join stream by position |
| `UsdText.EscapesCompose` | agents/common/usd.py:15-22 | the five sequential replacements are one map per character |
| `UsdText.EscapeTable` | agents/common/usd.py:15-22 | the five escapes, spelled out |
| `UsdText.EscapedClean` | agents/common/usd.py:15-22 | no raw control character and no bare quote is left inside a literal |
| `UsdText.EscapedPlain` | agents/common/usd.py:15-22 | every other character stands for itself |
| `UsdText.UnescapeInverts` | agents/common/usd.py:15-22 | that map has a left inverse |
| `UsdText.UsdStrRoundTrip` | agents/common/usd.py:15-22 | the value is recovered from its literal |
| `UsdText.LiteralSkipped` | agents/validator/validator.py:1661-1671 | skipping from the opening quote ends just past the closing one, for every value |
| `ScanLocality.LaterSpecsIndependent` | agents/validator/validator.py:1661-1671 | in any text, once the scan is at a literal's opening quote, its outcome is the same for every value |
| `ScanLocality.LiteralPassed` | agents/validator/validator.py:1661-1671 | one iteration steps over the literal if and only if it is non-empty or no quote follows it |
| `ScanLocality.ScanLocal` | agents/validator/validator.py:1636-1718 | the scan from an index depends only on the text ahead and on whether a word character is behind |
| `ScanLocality.UnclosedSwallows` | agents/validator/validator.py:1661-1675 | a literal or asset path that is never closed swallows the rest of the text |
| `ScanLocality.StrayClosers` | agents/validator/validator.py:1682-1702 | a closing parenthesis or brace with nothing to close is passed over |
| `LayerTokens.ScanPlays` | agents/validator/validator.py:1655-1718 | scanning the characters of a printed token list is running the token machine on it |
| `LayerTokens.DeclMeans` | agents/validator/validator.py:80-84 | at any place of any text, what matches is a well-formed declaration with those parts, ending there |
| `LayerTokens.DeclFound` | agents/validator/validator.py:80-84 | and every well-formed declaration matches |
| `LayerTokens.BareSwallowsNothing` | agents/validator/validator.py:76-84 | a bare specifier never takes the declaration after it as its type |
| `PrimScanner.PathJoins` | agents/validator/validator.py:1707-1709 | a path is its names, each after a slash |
| `PrimScanner.CharacterClasses` | agents/validator/validator.py:80-89 | the character classes of the patterns, spelled out |
| `PrimTrees.ScannerInvertsPrinter` | agents/validator/validator.py:1636-1718 | for every printed prim tree, with dictionary-valued attributes and every literal form, the scan returns exactly the preorder list of (specifier, type, path); variant scopes add no segment, a stray brace a nameless one, and a variant keyword that opens nothing is forgotten at the next declaration |
| `PrimTrees.LiteralsDoNotMatter` | agents/validator/validator.py:1661-1671 | two whole printed layers that differ in a literal have the same specs |
| `PrimScanner.ScanLayer` | agents/validator/validator.py:1636-1718 | the while loop computes the scan, for every text |
| `RevisionLoop.MergeLayers` | agents/runtime/supervisor.py:47-63 | filling the dictionary is the merge of the whole sequence |
| `RevisionLoop.MergeCurrent` | agents/runtime/supervisor.py:47-63 | one layer per (specialist, region), the most recently produced, none missing |
| `RevisionLoop.MergeOrder` | agents/runtime/supervisor.py:47-63 | layers stand in the order in which their keys were first produced |
| `RevisionLoop.MergeAbsorbs` | agents/runtime/supervisor.py:47-63 | merging as layers arrive is merging their whole history |
| `RevisionLoop.RouteBackEarliest` | agents/runtime/supervisor.py:148-178 | a re-run goes to the earliest blamed specialist, without blame to the earliest one named in the issues, else to the director; there is none if and only if the fault is terminal and no pipeline specialist is blamed |
| `RevisionLoop.ValidatorSuccessor` | agents/runtime/supervisor.py:194-241 | after a validator run the graph ends if and only if the validator failed, accepted, used the third round, or nothing can be repaired; otherwise the routed specialist runs |
| `RevisionLoop.SpecialistSuccessor` | agents/runtime/supervisor.py:86-109 | a specialist run puts its layer in place, changes no other, and is followed by the next node |
| `RevisionLoop.RevisionLoopEnds` | agents/runtime/supervisor.py:181-241 | from no rounds used, every run is over within 24 node runs and 3 validator passes |
| `RevisionLoop.ValidatorEntry` | agents/runtime/supervisor.py:244-265 | at every validator entry last-run times increase strictly along the pipeline, and the layers are the latest of each key |
| `RevisionLoop.FailedRunKeepsLayers` | agents/runtime/supervisor.py:86-109 | a specialist that fails or times out leaves every layer as it was |
| `BatchTransport.BatchCall` | mesh/coordinator/src/meter.rs:177-202 | one call records exactly the unrecorded jobs that reached the contract, a fault whose reply was lost included; without a fault it returns one receipt per job in position, else the matching error |
| `BatchTransport.BatchErrors` | mesh/coordinator/src/meter.rs:186-198 | transient stays transient and permanent permanent with its own text; an unauthorized key is permanent |
| `BatchTransport.LostReplyLands` | mesh/coordinator/src/meter.rs:95-99 | a call whose reply was lost has landed all the same |
| `BatchTransport.NothingLanded` | mesh/coordinator/src/meter.rs:138-142 | a call leaves the ledger unchanged if and only if every job that reached the contract was recorded before |
| `BatchTransport.TransientAfterLanding` | mesh/coordinator/src/meter.rs:138-142 | a transient batch error with the first job recorded |
| `BatchTransport.AtMostOnce` | mesh/coordinator/src/meter.rs:177-202 | over any sequence of overlapping, faulting calls each job is recorded at most once and never forgotten |
| `BatchTransport.RetryCompletes` | mesh/coordinator/src/relay.rs:133-157 | a later fault-free call of the same batch completes it, with the sentinel for all that had landed |
| `BatchTransport.Transport.CallBatch` | mesh/coordinator/src/relay.rs:133-157 | the loop with its early returns |
| `BatchTransport.Transport.CallOne` | mesh/coordinator/src/meter.rs:94-116 | one call under the per-job fence |
| `Gateway.SubprocessGateway.ReadAndDispatch` | agents/arena_client/sdk.py:516-530 | routing a line keeps every channel first-in first-out |
| `Gateway.SubprocessGateway.Recv` | agents/arena_client/sdk.py:532-538 | delivers the seat's next frame in stream order and loses none of the others; reads nothing if one is queued; fails only on a line of no known channel; closed only when the seat has received all its frames |
| `Gateway.SubprocessGateway.RecvSpectator` | agents/arena_client/sdk.py:540-555 | the same for broadcasts; refused without reading when no buffer is attached |
| `Gateway.DispatchKeepsFifo` | agents/arena_client/sdk.py:516-530 | delivered plus queued is the stream's own subsequence, for every seat |
| `Gateway.ChannelExact` | agents/arena_client/sdk.py:516-530 | a channel is exactly its own lines, each at its rank among them |
| `ArenaClient.ClientTrace` | agents/arena_client/sdk.py:280-384 | over every run the client acts only on live observations of a match not left, echoing their tick; sends nothing after a leave; and answers each with one frame or one forfeit, always a frame in lock-step mode, but for a leave asked for after the end, which draws nothing |
| `ArenaClient.NothingMoot` | agents/arena_client/sdk.py:386-400 | a driver that stops at the end leaves no such observation, so each draws exactly one frame or forfeit |
| `ArenaClient.DoneExactly` | agents/arena_client/sdk.py:298-308 | the client is done if and only if a match end has arrived |
| `ArenaClient.PhaseExactly` | agents/arena_client/sdk.py:317-318 | its phase is that of the last observation |
| `ArenaClient.LeaveExactly` | agents/arena_client/sdk.py:371-384 | a leave from outside is sent exactly in a live match neither ended nor left, and otherwise changes nothing |
| `ArenaClient.Client.Respond` | agents/arena_client/sdk.py:317-358 | the branches of `_respond` |
| `ArenaClient.Client.LeaveMatch` | agents/arena_client/sdk.py:371-384 | a leave is sent once and only from a live match |
| `ArenaClient.Client.Handle` | agents/arena_client/sdk.py:280-315 | one inbound frame or outside leave |

## Left out

- The combat core: its rating deltas are function parameters under the documented contract (one delta per seat, in outcome order, summing to zero), and match simulation and replay frames are not part of this model.
- Hashing, signatures and address derivation: only the bytes fed to the hash are modelled; a presented token is the verifier's yes or no, and registry lookups take ids already case-folded.
- The match generator's draws (`SplitMix64`) and minted match ids: draws are a parameter, and a registration under an id used before is not a step of a run.
- Floating point in the budget code: totals are exact reals and tolerance comparisons are equality, so rounding and NaN are not captured.
- Extracting fields from layer text: the gate starts from parsed records, where an absent or ill-typed field is `None`.
- `BudgetGate.GateComplete`: assumes one layer per specialist and non-negative metrics; `BudgetGate.ResolvedVerdict` is the exact verdict without either.
- `PrimTrees.ScannerInvertsPrinter`: outside parentheses the words `variant` and `variantSet` are printed only where they open a variant scope or stand before a declaration. `LayerTokens.DeclMeans`, `PrimScanner.ScanLayer`, `ScanLocality.ScanLocal` and `ScanLocality.LaterSpecsIndependent` are about all texts.
- Non-ASCII word characters and spaces in the scanner's regular expressions.
- `Teams.AssignTeams`: the modulo bias of the draws is not modelled, since nothing is said about how likely an arrangement is.
- Locks and threads: each locked section is one atomic step. A spectator's weak handle is a flag.
- `RevisionLoop.RouteBackEarliest`: which specialist names occur in the issue texts is a parameter, not a text search.
- Native batch overrides, revocation and the coordinator's drain loop: only the default batch calls over a fenced single call.
- `ArenaClient.ClientTrace`: starts after the handshake and takes `leave` as called between frames, not while the policy is running.
- The other validator gates, the specialists' own work, files, processes, HTTP, the command line, workflows and wire schemas: one equality or one call each, with nothing to prove across them.
