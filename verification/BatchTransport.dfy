/**
 The default batch calls of the two settlement transports, `Spender::spend_batch` and
 `Relay::submit_batch`: one single call per element, an idempotent success for an element the
 contract has already recorded, and a stop at the first fault. The contract's per-job fence is
 the ledger; which calls fault is a parameter.
 */
module BatchTransport {
  import opened Common

  type JobId = nat

  /** What a failed call reports. */
  datatype Fault = NotAuthorized | Transient(why: string) | Permanent(why: string)

  /** A single call: recorded with its receipt, already recorded, or faulted. */
  datatype CallResult = Landed(receipt: string) | AlreadyRecorded | Failed(fault: Fault)

  datatype BatchError = BatchTransient(why: string) | BatchPermanent(why: string)
  datatype BatchResult = Receipts(receipts: seq<string>) | BatchFailed(error: BatchError)

  /** What differs between the two transports: the sentinel receipt and the authorization message. */
  datatype Kind = Kind(sentinel: string, unauthorized: string)

  const SPENDER := Kind("already-spent", "spender key not authorized on ComputeMeter")
  const RELAY := Kind("already-issued", "coordinator signer not authorized on RenderReceipts")

  /**
   One planned call outcome: the fault that hits it, or the receipt it would get. `lands` is a
   faulted call that reached the contract all the same, only its reply being lost.
   */
  datatype Attempt = Attempt(fault: Option<Fault>, lands: bool, receipt: string)

  function Record(ledger: seq<JobId>, job: JobId): seq<JobId> { if job in ledger then ledger else ledger + [job] }

  /** The single call under the per-job fence: a job is recorded at most once. */
  function Call(ledger: seq<JobId>, job: JobId, a: Attempt): (seq<JobId>, CallResult) {
    if a.fault.Some? then (if a.lands then Record(ledger, job) else ledger, Failed(a.fault.value))
    else if job in ledger then (ledger, AlreadyRecorded)
    else (ledger + [job], Landed(a.receipt))
  }

  function ToBatchError(kind: Kind, f: Fault): BatchError {
    match f
    case NotAuthorized => BatchPermanent(kind.unauthorized)
    case Transient(why) => BatchTransient(why)
    case Permanent(why) => BatchPermanent(why)
  }

  /** The loop of the default batch call over the first n jobs. */
  function Batch(kind: Kind, ledger: seq<JobId>, jobs: seq<JobId>, plan: seq<Attempt>, n: nat)
      : (seq<JobId>, BatchResult)
    requires n <= |jobs| && |plan| == |jobs|
  {
    if n == 0 then (ledger, Receipts([])) else
      var (before, result) := Batch(kind, ledger, jobs, plan, n - 1);
      if result.BatchFailed? then (before, result) else
        var (after, called) := Call(before, jobs[n - 1], plan[n - 1]);
        match called
        case Landed(receipt) => (after, Receipts(result.receipts + [receipt]))
        case AlreadyRecorded => (after, Receipts(result.receipts + [kind.sentinel]))
        case Failed(fault) => (after, BatchFailed(ToBatchError(kind, fault)))
  }

  lemma {:induction false} FailureSticks(kind: Kind, ledger: seq<JobId>, jobs: seq<JobId>, plan: seq<Attempt>,
      m: nat, n: nat)
    requires m <= n <= |jobs| && |plan| == |jobs| && Batch(kind, ledger, jobs, plan, m).1.BatchFailed?
    ensures Batch(kind, ledger, jobs, plan, n) == Batch(kind, ledger, jobs, plan, m)
  {
    if m < n { FailureSticks(kind, ledger, jobs, plan, m, n - 1); }
  }

  // ---- One batch call ------------------------------------------------------

  ghost predicate NoRepeat(ledger: seq<JobId>) { forall i, j :: 0 <= i < j < |ledger| ==> ledger[i] != ledger[j] }

  /** The jobs of the first n that the ledger did not hold, in order and once each. */
  function Missing(ledger: seq<JobId>, jobs: seq<JobId>, n: nat): seq<JobId>
    requires n <= |jobs|
  {
    if n == 0 then [] else
      var earlier := Missing(ledger, jobs, n - 1);
      if jobs[n - 1] in ledger || jobs[n - 1] in earlier then earlier else earlier + [jobs[n - 1]]
  }

  /** How many jobs precede the first fault of the plan. */
  function FirstFault(plan: seq<Attempt>): (k: nat)
    ensures k <= |plan| && (forall i :: 0 <= i < k ==> plan[i].fault.None?) && (k < |plan| ==> plan[k].fault.Some?)
  {
    if plan == [] || plan[0].fault.Some? then 0 else 1 + FirstFault(plan[1..])
  }

  /** How many jobs reached the contract: those before the first fault, and its own if only the reply was lost. */
  function Reached(plan: seq<Attempt>): (n: nat)
    ensures n <= |plan|
  {
    var k := FirstFault(plan);
    if k < |plan| && plan[k].lands then k + 1 else k
  }

  /** The receipt of job n: the sentinel exactly when the fence had it already. */
  function ReceiptAt(kind: Kind, ledger: seq<JobId>, jobs: seq<JobId>, plan: seq<Attempt>, n: nat): string
    requires n < |jobs| && |plan| == |jobs|
  {
    if jobs[n] in ledger || jobs[n] in Missing(ledger, jobs, n) then kind.sentinel else plan[n].receipt
  }

  lemma {:induction false} BatchPrefix(kind: Kind, ledger: seq<JobId>, jobs: seq<JobId>, plan: seq<Attempt>, n: nat)
    requires n <= FirstFault(plan) && |plan| == |jobs|
    ensures var (after, result) := Batch(kind, ledger, jobs, plan, n);
      && after == ledger + Missing(ledger, jobs, n) && result.Receipts? && |result.receipts| == n
      && forall i :: 0 <= i < n ==> result.receipts[i] == ReceiptAt(kind, ledger, jobs, plan, i)
  {
    if n == 0 {
      assert ledger + [] == ledger;
    } else {
      BatchPrefix(kind, ledger, jobs, plan, n - 1);
      var missing := Missing(ledger, jobs, n - 1);
      assert jobs[n - 1] in ledger + missing <==> jobs[n - 1] in ledger || jobs[n - 1] in missing;
      assert ledger + missing + [jobs[n - 1]] == ledger + (missing + [jobs[n - 1]]);
    }
  }

  /**
   How a stopped batch reports its fault: a transient one stays transient and a permanent one permanent,
   with its own text; an unauthorized key is permanent, with the transport's.
   */
  lemma BatchErrors(kind: Kind, ledger: seq<JobId>, jobs: seq<JobId>, plan: seq<Attempt>)
    requires |plan| == |jobs| && FirstFault(plan) < |jobs|
    ensures var r := Batch(kind, ledger, jobs, plan, |jobs|).1;
      var fault := plan[FirstFault(plan)].fault.value;
      && r.BatchFailed?
      && (r.error.BatchTransient? <==> fault.Transient?)
      && (fault.Transient? || fault.Permanent? ==> r.error.why == fault.why)
      && (fault.NotAuthorized? && kind == SPENDER ==> r.error.why == "spender key not authorized on ComputeMeter")
      && (fault.NotAuthorized? && kind == RELAY ==>
          r.error.why == "coordinator signer not authorized on RenderReceipts")
  {
    BatchCall(kind, ledger, jobs, plan);
    hide Batch, FirstFault, Missing, Reached, ReceiptAt;
  }

  /** The call that stops the batch. */
  lemma FailedCall(kind: Kind, ledger: seq<JobId>, jobs: seq<JobId>, plan: seq<Attempt>)
    requires |plan| == |jobs| && FirstFault(plan) < |jobs|
    ensures var k := FirstFault(plan);
      Batch(kind, ledger, jobs, plan, k + 1)
        == (ledger + Missing(ledger, jobs, Reached(plan)), BatchFailed(ToBatchError(kind, plan[k].fault.value)))
  {
    var k := FirstFault(plan);
    BatchPrefix(kind, ledger, jobs, plan, k);
    var missing := Missing(ledger, jobs, k);
    assert jobs[k] in ledger + missing <==> jobs[k] in ledger || jobs[k] in missing;
    assert ledger + missing + [jobs[k]] == ledger + (missing + [jobs[k]]);
  }

  /**
   One default batch call, for any plan of faults: it records exactly the jobs that reached the
   contract and were not recorded yet; without a fault it returns one receipt per job, in
   position; with one it returns the matching error.
   */
  lemma BatchCall(kind: Kind, ledger: seq<JobId>, jobs: seq<JobId>, plan: seq<Attempt>)
    requires |plan| == |jobs|
    ensures var (after, result) := Batch(kind, ledger, jobs, plan, |jobs|);
      var k := FirstFault(plan);
      && after == ledger + Missing(ledger, jobs, Reached(plan))
      && (k == |jobs| ==>
          && result.Receipts? && |result.receipts| == |jobs|
          && forall i :: 0 <= i < |jobs| ==> result.receipts[i] == ReceiptAt(kind, ledger, jobs, plan, i))
      && (k < |jobs| ==> result == BatchFailed(ToBatchError(kind, plan[k].fault.value)))
  {
    var k := FirstFault(plan);
    BatchPrefix(kind, ledger, jobs, plan, k);
    if k < |jobs| {
      FailedCall(kind, ledger, jobs, plan);
      FailureSticks(kind, ledger, jobs, plan, k + 1, |jobs|);
    }
  }

  lemma {:induction false} MissingMembers(ledger: seq<JobId>, jobs: seq<JobId>, n: nat)
    requires n <= |jobs|
    ensures NoRepeat(Missing(ledger, jobs, n))
    ensures forall j :: j in Missing(ledger, jobs, n) <==> j in jobs[..n] && j !in ledger
  {
    if n != 0 {
      MissingMembers(ledger, jobs, n - 1);
      assert jobs[..n] == jobs[..n - 1] + [jobs[n - 1]];
    }
  }

  /**
   When nothing lands: a call leaves the ledger as it was if and only if every job that reached
   the contract had been recorded before. Without lost replies those are the jobs before the fault.
   */
  lemma NothingLanded(kind: Kind, ledger: seq<JobId>, jobs: seq<JobId>, plan: seq<Attempt>)
    requires |plan| == |jobs|
    ensures Batch(kind, ledger, jobs, plan, |jobs|).0 == ledger
      <==> forall i :: 0 <= i < Reached(plan) ==> jobs[i] in ledger
    ensures (forall i :: 0 <= i < |plan| ==> !plan[i].lands) ==> Reached(plan) == FirstFault(plan)
  {
    hide Batch, FirstFault;
    BatchCall(kind, ledger, jobs, plan);
    var n := Reached(plan);
    MissingMembers(ledger, jobs, n);
    var missing := Missing(ledger, jobs, n);
    assert |ledger + missing| == |ledger| + |missing|;
    if missing == [] {
      assert ledger + missing == ledger;
      forall i | 0 <= i < n ensures jobs[i] in ledger { assert jobs[i] in jobs[..n]; }
    } else {
      assert missing[0] in missing && missing[0] in jobs[..n];
    }
  }

  /** A call whose reply was lost has landed all the same. */
  lemma LostReplyLands(kind: Kind, ledger: seq<JobId>, jobs: seq<JobId>, plan: seq<Attempt>, k: nat)
    requires |plan| == |jobs| && k < |jobs| && plan[k].lands && forall i :: 0 <= i < k ==> plan[i].fault.None?
    ensures jobs[k] in Batch(kind, ledger, jobs, plan, |jobs|).0
  {
    hide Batch;
    BatchCall(kind, ledger, jobs, plan);
    var n := Reached(plan);
    assert k < n;
    MissingMembers(ledger, jobs, n);
    assert jobs[k] in jobs[..n];
  }

  /** A transient batch error after something landed: the second of two new jobs faults. */
  lemma TransientAfterLanding(kind: Kind, first: JobId, second: JobId, receipt: string, why: string)
    ensures var plan := [Attempt(None, false, receipt), Attempt(Some(Transient(why)), false, "")];
      Batch(kind, [], [first, second], plan, 2) == ([first], BatchFailed(BatchTransient(why)))
  {
    var plan := [Attempt(None, false, receipt), Attempt(Some(Transient(why)), false, "")];
    var jobs := [first, second];
    assert [] + [first] == [first];
    assert Batch(kind, [], jobs, plan, 1).0 == [first];
  }

  /** The ledger records each of the first n jobs. */
  ghost predicate Holds(ledger: seq<JobId>, jobs: seq<JobId>, n: nat) {
    n <= |jobs| && forall i :: 0 <= i < n ==> jobs[i] in ledger
  }

  lemma HoldsLonger(ledger: seq<JobId>, longer: seq<JobId>, jobs: seq<JobId>, n: nat)
    requires Holds(ledger, jobs, n) && ledger <= longer
    ensures Holds(longer, jobs, n)
  {
    forall i | 0 <= i < n ensures jobs[i] in longer {
      var j :| 0 <= j < |ledger| && ledger[j] == jobs[i];
      assert longer[j] == jobs[i];
    }
  }

  /** Recording what is missing keeps the ledger free of repeats. */
  lemma RecordMissing(ledger: seq<JobId>, jobs: seq<JobId>, n: nat)
    requires n <= |jobs| && NoRepeat(ledger)
    ensures NoRepeat(ledger + Missing(ledger, jobs, n))
    ensures Holds(ledger + Missing(ledger, jobs, n), jobs, n)
  {
    MissingMembers(ledger, jobs, n);
    var missing := Missing(ledger, jobs, n);
    forall i, j | 0 <= i < j < |ledger + missing| ensures (ledger + missing)[i] != (ledger + missing)[j] {
      assert j >= |ledger| ==> missing[j - |ledger|] in missing;
    }
    forall i | 0 <= i < n ensures jobs[i] in ledger + missing { assert jobs[i] in jobs[..n]; }
  }

  // ---- Any sequence of batch calls -----------------------------------------

  datatype BatchRequest = BatchRequest(jobs: seq<JobId>, plan: seq<Attempt>)

  ghost predicate WellPlanned(calls: seq<BatchRequest>) {
    forall i :: 0 <= i < |calls| ==> |calls[i].plan| == |calls[i].jobs|
  }

  /** One transport's ledger after a sequence of calls, retries and overlaps included. */
  function Drain(kind: Kind, ledger: seq<JobId>, calls: seq<BatchRequest>): seq<JobId>
    requires WellPlanned(calls)
    decreases |calls|
  {
    if calls == [] then ledger else
      Drain(kind, Batch(kind, ledger, calls[0].jobs, calls[0].plan, |calls[0].jobs|).0, calls[1..])
  }

  /** Over any sequence of batch calls every job is recorded at most once, and never unrecorded. */
  lemma {:induction false} AtMostOnce(kind: Kind, ledger: seq<JobId>, calls: seq<BatchRequest>)
    requires WellPlanned(calls) && NoRepeat(ledger)
    ensures NoRepeat(Drain(kind, ledger, calls)) && ledger <= Drain(kind, ledger, calls)
    decreases |calls|
  {
    if calls != [] {
      var c := calls[0];
      BatchCall(kind, ledger, c.jobs, c.plan);
      RecordMissing(ledger, c.jobs, Reached(c.plan));
      hide Batch, Missing, Reached, NoRepeat;
      AtMostOnce(kind, Batch(kind, ledger, c.jobs, c.plan, |c.jobs|).0, calls[1..]);
    }
  }

  /** Every job recorded once, one receipt each, the sentinel for the first k. */
  ghost predicate Complete(ledger: seq<JobId>, jobs: seq<JobId>, result: BatchResult, k: nat, sentinel: string) {
    && NoRepeat(ledger) && Holds(ledger, jobs, |jobs|)
    && result.Receipts? && k <= |result.receipts| == |jobs|
    && forall i :: 0 <= i < k ==> result.receipts[i] == sentinel
  }

  /**
   Retrying a failed batch: a later fault-free call of the same jobs, whatever was called in
   between, returns a receipt for each, records every job of the batch exactly once, and reports
   the sentinel for all that had landed.
   */
  lemma RetryCompletes(kind: Kind, ledger: seq<JobId>, jobs: seq<JobId>, plan: seq<Attempt>,
      between: seq<BatchRequest>, retry: seq<Attempt>)
    requires NoRepeat(ledger) && |plan| == |jobs| && |retry| == |jobs| && WellPlanned(between)
    requires forall i :: 0 <= i < |retry| ==> retry[i].fault.None?
    ensures var first := Batch(kind, ledger, jobs, plan, |jobs|).0;
      var middle := Drain(kind, first, between);
      var r := Batch(kind, middle, jobs, retry, |jobs|);
      Complete(r.0, jobs, r.1, Reached(plan), kind.sentinel)
  {
    hide Batch, FirstFault, Reached, NoRepeat, Drain, Complete, Holds;
    var first := Batch(kind, ledger, jobs, plan, |jobs|).0;
    LandedPrefix(kind, ledger, jobs, plan);
    AtMostOnce(kind, first, between);
    var middle := Drain(kind, first, between);
    HoldsLonger(first, middle, jobs, Reached(plan));
    FaultFree(kind, middle, jobs, retry, Reached(plan));
  }

  /** After any call, everything that reached the contract is on the ledger. */
  lemma LandedPrefix(kind: Kind, ledger: seq<JobId>, jobs: seq<JobId>, plan: seq<Attempt>)
    requires NoRepeat(ledger) && |plan| == |jobs|
    ensures var after := Batch(kind, ledger, jobs, plan, |jobs|).0;
      NoRepeat(after) && Holds(after, jobs, Reached(plan))
  {
    hide Batch, FirstFault, Reached, NoRepeat, Holds, Missing;
    BatchCall(kind, ledger, jobs, plan);
    RecordMissing(ledger, jobs, Reached(plan));
  }

  /** A fault-free call over a ledger that already holds the first k jobs. */
  lemma FaultFree(kind: Kind, ledger: seq<JobId>, jobs: seq<JobId>, plan: seq<Attempt>, k: nat)
    requires NoRepeat(ledger) && |plan| == |jobs| && Holds(ledger, jobs, k)
    requires forall i :: 0 <= i < |plan| ==> plan[i].fault.None?
    ensures var r := Batch(kind, ledger, jobs, plan, |jobs|);
      Complete(r.0, jobs, r.1, k, kind.sentinel)
  {
    hide Batch, Missing, FirstFault, NoRepeat, Holds, ReceiptAt;
    assert FirstFault(plan) == Reached(plan) == |jobs|;
    BatchCall(kind, ledger, jobs, plan);
    RecordMissing(ledger, jobs, |jobs|);
    HoldsSentinel(kind, ledger, jobs, plan, k);
  }

  lemma HoldsSentinel(kind: Kind, ledger: seq<JobId>, jobs: seq<JobId>, plan: seq<Attempt>, k: nat)
    requires |plan| == |jobs| && Holds(ledger, jobs, k)
    ensures k <= |jobs| && forall i :: 0 <= i < k ==> ReceiptAt(kind, ledger, jobs, plan, i) == kind.sentinel
  {}

  // ---- The loop as written -------------------------------------------------

  /** A transport and the contract's ledger behind it. */
  class Transport {
    const kind: Kind
    var ledger: seq<JobId>

    constructor (kind: Kind)
      ensures this.kind == kind && ledger == []
    {
      this.kind := kind;
      ledger := [];
    }

    /** `spend` or `submit`. */
    method CallOne(job: JobId, a: Attempt) returns (r: CallResult)
      modifies this
      ensures (ledger, r) == Call(old(ledger), job, a)
    {
      if a.fault.Some? {
        if a.lands {
          ledger := Record(ledger, job);
        }
        return Failed(a.fault.value);
      }
      if job in ledger {
        return AlreadyRecorded;
      }
      ledger := ledger + [job];
      return Landed(a.receipt);
    }

    /** `spend_batch` or `submit_batch`. */
    method CallBatch(jobs: seq<JobId>, plan: seq<Attempt>) returns (r: BatchResult)
      requires |plan| == |jobs|
      modifies this
      ensures (ledger, r) == Batch(kind, old(ledger), jobs, plan, |jobs|)
    {
      var receipts: seq<string> := [];
      for i := 0 to |jobs|
        invariant (ledger, Receipts(receipts)) == Batch(kind, old(ledger), jobs, plan, i)
      {
        var called := CallOne(jobs[i], plan[i]);
        match called {
          case Landed(receipt) => receipts := receipts + [receipt];
          case AlreadyRecorded => receipts := receipts + [kind.sentinel];
          case Failed(fault) =>
            r := BatchFailed(ToBatchError(kind, fault));
            assert (ledger, r) == Batch(kind, old(ledger), jobs, plan, i + 1);
            FailureSticks(kind, old(ledger), jobs, plan, i + 1, |jobs|);
            return;
        }
      }
      return Receipts(receipts);
    }
  }
}
