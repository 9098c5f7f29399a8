/**
 Who sits down together: picking seats from a waiting queue and removing them. A waiting
 participant carries the number of its join, which stands for the identity of the moved value.
 */
module Selection {
  import opened Common

  datatype Mode = HumanMode | AgentMode | MixedMode
  datatype Kind = Human | Agent
  datatype Seated = Seated(ticket: nat, agentId: string, kind: Kind)

  // ---- Index sets over a queue ---------------------------------------------

  /** The queue entries from index i on whose index was picked, in arrival order. */
  function Chosen(q: seq<Seated>, picks: set<nat>, i: nat): seq<Seated>
    requires i <= |q|
    decreases |q| - i
  {
    if i == |q| then []
    else if i in picks then [q[i]] + Chosen(q, picks, i + 1)
    else Chosen(q, picks, i + 1)
  }

  /** The entries from index i on that stay, in arrival order. */
  function Rest(q: seq<Seated>, picks: set<nat>, i: nat): seq<Seated>
    requires i <= |q|
    decreases |q| - i
  {
    if i == |q| then []
    else if i in picks then Rest(q, picks, i + 1)
    else [q[i]] + Rest(q, picks, i + 1)
  }

  /** How many picked indices lie in [i, j). */
  function Count(picks: set<nat>, i: nat, j: nat): nat
    requires i <= j
    decreases j - i
  {
    if i == j then 0 else (if i in picks then 1 else 0) + Count(picks, i + 1, j)
  }

  ghost predicate InRange(picks: set<nat>, n: nat) { forall i :: i in picks ==> i < n }

  lemma {:induction false} Partition(q: seq<Seated>, picks: set<nat>, i: nat)
    requires i <= |q|
    ensures multiset(Chosen(q, picks, i)) + multiset(Rest(q, picks, i)) == multiset(q[i..])
    ensures |Chosen(q, picks, i)| == Count(picks, i, |q|)
    ensures |Rest(q, picks, i)| == |q| - i - Count(picks, i, |q|)
    decreases |q| - i
  {
    if i < |q| {
      Partition(q, picks, i + 1);
      assert q[i..] == [q[i]] + q[i + 1..];
    }
  }

  lemma {:induction false} CountAll(picks: set<nat>, i: nat, n: nat)
    requires i <= n
    ensures Count(picks, i, n) == |set k | k in picks && i <= k < n|
    decreases n - i
  {
    var s := set k | k in picks && i <= k < n;
    if i < n {
      CountAll(picks, i + 1, n);
      var s' := set k | k in picks && i + 1 <= k < n;
      assert s == if i in picks then s' + {i} else s';
    } else {
      assert s == {};
    }
  }

  /** Everyone seated or left waiting was in the queue, and nobody is duplicated or lost. */
  lemma TakenAndLeft(q: seq<Seated>, picks: set<nat>)
    requires InRange(picks, |q|)
    ensures multiset(Chosen(q, picks, 0)) + multiset(Rest(q, picks, 0)) == multiset(q)
    ensures |Chosen(q, picks, 0)| == |picks| && |Rest(q, picks, 0)| == |q| - |picks|
  {
    Partition(q, picks, 0);
    CountAll(picks, 0, |q|);
    assert q[0..] == q;
    assert picks == set k | k in picks && 0 <= k < |q|;
  }

  lemma {:induction false} ChosenPlace(q: seq<Seated>, picks: set<nat>, i: nat, k: nat)
    requires i <= k < |q| && k in picks
    ensures var c := Count(picks, i, k);
      c < |Chosen(q, picks, i)| && Chosen(q, picks, i)[c] == q[k]
    decreases k - i
  {
    if i < k { ChosenPlace(q, picks, i + 1, k); }
  }

  /** Whoever stays moves forward by exactly the number of picks ahead of it. */
  lemma {:induction false} RestPlace(q: seq<Seated>, picks: set<nat>, i: nat, k: nat)
    requires i <= k < |q| && k !in picks
    ensures var c := k - i - Count(picks, i, k);
      0 <= c < |Rest(q, picks, i)| && Rest(q, picks, i)[c] == q[k]
    decreases k - i
  {
    if i < k { RestPlace(q, picks, i + 1, k); }
  }

  lemma {:induction false} MembersFromQueue(q: seq<Seated>, picks: set<nat>, i: nat)
    requires i <= |q|
    ensures forall x :: x in Chosen(q, picks, i) ==> exists k :: i <= k < |q| && k in picks && q[k] == x
    ensures forall x :: x in Rest(q, picks, i) ==> exists k :: i <= k < |q| && k !in picks && q[k] == x
    decreases |q| - i
  {
    if i < |q| { MembersFromQueue(q, picks, i + 1); }
  }

  // ---- Removing a roster by index ------------------------------------------

  function ToSet(picks: seq<nat>): set<nat> { set i | 0 <= i < |picks| :: picks[i] }

  ghost predicate Ascending(xs: seq<nat>) { forall i, j :: 0 <= i < j < |xs| ==> xs[i] < xs[j] }

  ghost predicate Distinct(xs: seq<nat>) { forall i, j :: 0 <= i < j < |xs| ==> xs[i] != xs[j] }

  lemma {:induction false} DistinctSize(xs: seq<nat>)
    requires Distinct(xs)
    ensures |ToSet(xs)| == |xs|
  {
    if xs != [] {
      var n := |xs| - 1;
      DistinctSize(xs[..n]);
      assert ToSet(xs) == ToSet(xs[..n]) + {xs[n]};
    } else {
      assert ToSet(xs) == {};
    }
  }

  function InsertAscending(x: nat, xs: seq<nat>): seq<nat> {
    if xs == [] || x <= xs[0] then [x] + xs else [xs[0]] + InsertAscending(x, xs[1..])
  }

  /** `picks.sort_unstable()`. */
  function SortAscending(xs: seq<nat>): seq<nat> {
    if xs == [] then [] else InsertAscending(xs[0], SortAscending(xs[1..]))
  }

  lemma {:induction false} InsertAscendingSorts(x: nat, xs: seq<nat>)
    requires Ascending(xs) && x !in xs
    ensures Ascending(InsertAscending(x, xs))
    ensures forall y: nat :: y in InsertAscending(x, xs) <==> y == x || y in xs
  {
    if xs != [] && x > xs[0] {
      var rest := InsertAscending(x, xs[1..]);
      InsertAscendingSorts(x, xs[1..]);
      forall j | 0 <= j < |rest| ensures xs[0] < rest[j] {
        assert rest[j] in rest;
      }
    }
  }

  lemma {:induction false} SortAscendingSorts(xs: seq<nat>)
    requires Distinct(xs)
    ensures Ascending(SortAscending(xs)) && (forall y: nat :: y in SortAscending(xs) <==> y in xs)
  {
    if xs != [] {
      SortAscendingSorts(xs[1..]);
      InsertAscendingSorts(xs[0], SortAscending(xs[1..]));
    }
  }

  /** A stretch without picks stays as it is. */
  lemma {:induction false} RestGap(q: seq<Seated>, picks: set<nat>, i: nat, j: nat)
    requires i <= j <= |q| && forall k :: i <= k < j ==> k !in picks
    ensures Rest(q, picks, i) == q[i..j] + Rest(q, picks, j)
    ensures Chosen(q, picks, i) == Chosen(q, picks, j)
    decreases j - i
  {
    if i < j {
      RestGap(q, picks, i + 1, j);
      assert q[i..j] + Rest(q, picks, j) == [q[i]] + (q[i + 1..j] + Rest(q, picks, j));
    }
  }

  /** Where removal stands once the sorted picks from k on are out of the queue. */
  function Cut(q: seq<Seated>, sorted: seq<nat>, k: nat): nat
    requires k <= |sorted|
  {
    if k == |sorted| then |q| else sorted[k]
  }

  lemma NoPickBetween(sorted: seq<nat>, k: nat, j: nat)
    requires Ascending(sorted) && 0 <= k <= |sorted|
    requires (0 < k ==> sorted[k - 1] < j) && (k < |sorted| ==> j < sorted[k])
    ensures j !in ToSet(sorted)
  {
    forall i | 0 <= i < |sorted| ensures sorted[i] != j {
      assert i + 1 < k ==> sorted[i] < sorted[k - 1];
      assert k < i ==> sorted[k] < sorted[i];
    }
  }

  /** Taking out pick p when everything picked from m on is already out. */
  lemma RemovalStep(q: seq<Seated>, picks: set<nat>, p: nat, m: nat, queue: seq<Seated>)
    requires p < m <= |q| && p in picks && forall j :: p < j < m ==> j !in picks
    requires queue == q[..m] + Rest(q, picks, m)
    ensures p < |queue| && queue[p] == q[p] && queue[..p] + queue[p + 1..] == q[..p] + Rest(q, picks, p)
    ensures Chosen(q, picks, p) == [q[p]] + Chosen(q, picks, m)
  {
    RestGap(q, picks, p + 1, m);
    assert queue[p + 1..] == q[p + 1..m] + Rest(q, picks, m);
  }

  /** Removes the sorted picks from the back, so that earlier indices stay valid, then reverses. */
  method RemovePicks(q: seq<Seated>, sorted: seq<nat>) returns (roster: seq<Seated>, queue: seq<Seated>)
    requires Ascending(sorted) && forall i :: 0 <= i < |sorted| ==> sorted[i] < |q|
    ensures roster == Chosen(q, ToSet(sorted), 0)
    ensures queue == Rest(q, ToSet(sorted), 0)
  {
    ghost var picks := ToSet(sorted);
    queue := q;
    var taken: seq<Seated> := [];
    var k := |sorted|;
    while k > 0
      invariant 0 <= k <= |sorted| && Cut(q, sorted, k) <= |q|
      invariant queue == q[..Cut(q, sorted, k)] + Rest(q, picks, Cut(q, sorted, k))
      invariant Reversed(taken) == Chosen(q, picks, Cut(q, sorted, k))
    {
      var p := sorted[k - 1];
      ghost var m := Cut(q, sorted, k);
      forall j | p < j < m ensures j !in picks { NoPickBetween(sorted, k, j); }
      RemovalStep(q, picks, p, m, queue);
      ReversedSnoc(taken, queue[p]);
      taken := taken + [queue[p]];
      queue := queue[..p] + queue[p + 1..];
      k := k - 1;
    }
    ghost var m := Cut(q, sorted, 0);
    forall j | 0 <= j < m ensures j !in picks { NoPickBetween(sorted, 0, j); }
    RestGap(q, picks, 0, m);
    assert q[0..m] == q[..m];
    roster := Reversed(taken);
  }

  function Reversed(xs: seq<Seated>): seq<Seated> {
    if xs == [] then [] else Reversed(xs[1..]) + [xs[0]]
  }

  lemma {:induction false} ReversedSnoc(xs: seq<Seated>, x: Seated)
    ensures Reversed(xs + [x]) == [x] + Reversed(xs)
  {
    if xs != [] {
      ReversedSnoc(xs[1..], x);
      assert (xs + [x])[1..] == xs[1..] + [x];
    }
  }
}
