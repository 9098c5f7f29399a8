/**
 Team assignment of a formed roster: balanced labels, shuffled in place by the draws of the
 match's generator. The draws are a parameter: the i-th is the one used at position i.
 */
module Teams {
  /** `teamSize` copies of each label below `teams`, in order. */
  function Labels(teams: nat, teamSize: nat): (r: seq<nat>)
    ensures |r| == teams * teamSize
  {
    if teams == 0 then [] else Labels(teams - 1, teamSize) + seq(teamSize, _ => teams - 1)
  }

  lemma {:induction false} RepeatCount(n: nat, x: nat, y: nat)
    ensures multiset(seq(n, _ => x))[y] == if x == y then n else 0
  {
    if n != 0 {
      RepeatCount(n - 1, x, y);
      assert seq(n, _ => x) == seq(n - 1, _ => x) + [x];
    }
  }

  lemma {:induction false} LabelsBalanced(teams: nat, teamSize: nat, t: nat)
    ensures multiset(Labels(teams, teamSize))[t] == if t < teams then teamSize else 0
  {
    if teams != 0 {
      LabelsBalanced(teams - 1, teamSize, t);
      RepeatCount(teamSize, teams - 1, t);
    }
  }

  // ---- The shuffle ---------------------------------------------------------

  function Swapped<T>(s: seq<T>, i: nat, j: nat): (r: seq<T>)
    requires i < |s| && j < |s|
    ensures |r| == |s|
  {
    s[i := s[j]][j := s[i]]
  }

  /** The partner of position i: the draw there, reduced to 0..i. */
  function Partner(draw: nat -> nat, i: nat): (j: nat)
    ensures j <= i && exists m: nat :: draw(i) == Wrapped(j, m, i)
  {
    assert draw(i) == Wrapped(draw(i) % (i + 1), draw(i) / (i + 1), i);
    draw(i) % (i + 1)
  }

  /** A draw of j with m rounds of i + 1 on top. */
  function Wrapped(j: nat, m: nat, i: nat): nat { j + m * (i + 1) }

  /** The Fisher-Yates loop with positions n-1 down to 1 still to do. */
  function Shuffled<T>(s: seq<T>, draw: nat -> nat, n: nat): (r: seq<T>)
    requires n <= |s|
    ensures |r| == |s|
    decreases n
  {
    if n <= 1 then s else Shuffled(Swapped(s, n - 1, Partner(draw, n - 1)), draw, n - 1)
  }

  lemma SwappedBag<T>(s: seq<T>, i: nat, j: nat)
    requires i < |s| && j < |s|
    ensures multiset(Swapped(s, i, j)) == multiset(s)
  {}

  lemma {:induction false} ShuffledBag<T>(s: seq<T>, draw: nat -> nat, n: nat)
    requires n <= |s|
    ensures multiset(Shuffled(s, draw, n)) == multiset(s)
    decreases n
  {
    if n > 1 {
      SwappedBag(s, n - 1, Partner(draw, n - 1));
      ShuffledBag(Swapped(s, n - 1, Partner(draw, n - 1)), draw, n - 1);
    }
  }

  /** A position already passed is settled. */
  lemma {:induction false} ShuffledKeepsTail<T>(s: seq<T>, draw: nat -> nat, n: nat, k: nat)
    requires n <= k < |s|
    ensures Shuffled(s, draw, n)[k] == s[k]
    decreases n
  {
    if n > 1 { ShuffledKeepsTail(Swapped(s, n - 1, Partner(draw, n - 1)), draw, n - 1, k); }
  }

  ghost predicate AllDifferent<T>(s: seq<T>) { forall i, j :: 0 <= i < j < |s| ==> s[i] != s[j] }

  /** The last position gets what its draw points at. */
  lemma LastDrawn<T>(s: seq<T>, draw: nat -> nat, n: nat)
    requires 2 <= n <= |s|
    ensures Shuffled(s, draw, n)[n - 1] == s[Partner(draw, n - 1)]
  {
    ShuffledKeepsTail(Swapped(s, n - 1, Partner(draw, n - 1)), draw, n - 1, n - 1);
  }

  lemma SwappedDifferent<T>(s: seq<T>, i: nat, j: nat)
    requires AllDifferent(s) && i < |s| && j < |s|
    ensures AllDifferent(Swapped(s, i, j))
  {}

  /** Different draws arrange different seats differently: no arrangement is favoured twice. */
  lemma {:induction false} ShuffleInjective<T>(s: seq<T>, draw: nat -> nat, other: nat -> nat, n: nat, i: nat)
    requires n <= |s| && AllDifferent(s) && 1 <= i < n
    requires Shuffled(s, draw, n) == Shuffled(s, other, n)
    ensures Partner(draw, i) == Partner(other, i)
    decreases n
  {
    hide Swapped;
    LastDrawn(s, draw, n);
    LastDrawn(s, other, n);
    var a := Partner(draw, n - 1);
    assert a == Partner(other, n - 1);
    if i < n - 1 {
      SwappedDifferent(s, n - 1, a);
      hide Partner, AllDifferent, Swapped;
      ShuffleInjective(Swapped(s, n - 1, a), draw, other, n - 1, i);
    }
  }

  /** Two sequences that agree past n hold the same things before it. */
  lemma SameFront<T>(s: seq<T>, t: seq<T>, n: nat)
    requires |s| == |t| && n <= |s| && multiset(s) == multiset(t) && s[n..] == t[n..]
    ensures multiset(s[..n]) == multiset(t[..n])
  {
    assert s == s[..n] + s[n..] && t == t[..n] + t[n..];
    assert multiset(s) == multiset(s[..n]) + multiset(s[n..]);
    assert multiset(t) == multiset(t[..n]) + multiset(s[n..]);
    forall x ensures multiset(s[..n])[x] == multiset(t[..n])[x] {
      assert multiset(s)[x] == multiset(s[..n])[x] + multiset(s[n..])[x];
      assert multiset(t)[x] == multiset(t[..n])[x] + multiset(s[n..])[x];
    }
  }

  lemma DrawsBelow<T>(s: seq<T>, draw: nat -> nat, other: nat -> nat, n: nat)
    requires n <= |s| && forall i :: 0 <= i < n ==> draw(i) == other(i)
    ensures Shuffled(s, draw, n) == Shuffled(s, other, n)
    decreases n
  {
    if n > 1 { DrawsBelow(Swapped(s, n - 1, Partner(draw, n - 1)), draw, other, n - 1); }
  }

  /** The same things, arranged alike from n on. */
  ghost predicate Rearranges<T>(s: seq<T>, t: seq<T>, n: nat) {
    |s| == |t| && n <= |s| && multiset(s) == multiset(t) && s[n..] == t[n..]
  }

  lemma SettleLast<T>(s: seq<T>, t: seq<T>, n: nat) returns (j: nat)
    requires Rearranges(s, t, n) && n >= 2
    ensures j < n <= |s| && Rearranges(Swapped(s, n - 1, j), t, n - 1)
  {
    SameFront(s, t, n);
    j := PartnerFor(s, t, n);
    SwappedBag(s, n - 1, j);
    TailAgrees(s, t, n, j);
  }

  lemma ShuffledShort<T>(s: seq<T>, t: seq<T>, draw: nat -> nat, n: nat)
    requires Rearranges(s, t, n) && n <= 1
    ensures n <= |s| && Shuffled(s, draw, n) == t
  {
    SameFront(s, t, n);
    ShortFront(s, t, n);
  }

  /** Every arrangement is reached by some draws, so arrival order decides nothing. */
  lemma {:induction false} ShuffleReaches<T>(s: seq<T>, t: seq<T>, n: nat) returns (draw: nat -> nat)
    requires Rearranges(s, t, n)
    ensures n <= |s| && Shuffled(s, draw, n) == t
    decreases n
  {
    hide Swapped, Shuffled, Rearranges, DrawThen;
    if n <= 1 {
      draw := FirstDraw;
      ShuffledShort(s, t, draw, n);
    } else {
      var j := SettleLast(s, t, n);
      var rest := ShuffleReaches(Swapped(s, n - 1, j), t, n - 1);
      draw := DrawThen(n - 1, j, rest);
      DrawFirst(s, n, j, rest);
    }
  }

  function FirstDraw(i: nat): nat { 0 }

  lemma PartnerFor<T>(s: seq<T>, t: seq<T>, n: nat) returns (j: nat)
    requires |s| == |t| && 1 <= n <= |s| && multiset(s[..n]) == multiset(t[..n])
    ensures j < n && s[j] == t[n - 1]
  {
    assert t[n - 1] in multiset(t[..n]) by { assert t[..n][n - 1] == t[n - 1]; }
    assert t[n - 1] in s[..n];
    j :| 0 <= j < n && s[..n][j] == t[n - 1];
  }

  /** Draws j at position i and follows the given draws elsewhere. */
  function DrawThen(i: nat, j: nat, rest: nat -> nat): nat -> nat {
    k => if k == i then j else rest(k)
  }

  lemma DrawFirst<T>(s: seq<T>, n: nat, j: nat, rest: nat -> nat)
    requires 2 <= n <= |s| && j < n
    ensures Shuffled(s, DrawThen(n - 1, j, rest), n) == Shuffled(Swapped(s, n - 1, j), rest, n - 1)
  {
    var draw := DrawThen(n - 1, j, rest);
    assert Partner(draw, n - 1) == j;
    DrawsBelow(Swapped(s, n - 1, j), draw, rest, n - 1);
  }

  lemma ShortFront<T>(s: seq<T>, t: seq<T>, n: nat)
    requires |s| == |t| && n <= 1 && n <= |s| && multiset(s[..n]) == multiset(t[..n]) && s[n..] == t[n..]
    ensures s == t
  {
    if n == 1 {
      assert s[..1] == [s[0]] && t[..1] == [t[0]];
      assert s[0] in multiset(t[..1]);
    }
    assert s == s[..n] + s[n..] && t == t[..n] + t[n..];
  }

  lemma TailAgrees<T>(s: seq<T>, t: seq<T>, n: nat, j: nat)
    requires |s| == |t| && j < n <= |s| && s[n..] == t[n..] && s[j] == t[n - 1]
    ensures Swapped(s, n - 1, j)[n - 1..] == t[n - 1..]
  {
    var s' := Swapped(s, n - 1, j);
    forall k | n <= k < |s| ensures s'[k] == t[k] { assert s[n..][k - n] == t[n..][k - n]; }
  }

  /** The loop, in place. */
  method Shuffle(labels: array<nat>, draw: nat -> nat)
    modifies labels
    ensures labels[..] == Shuffled(old(labels[..]), draw, labels.Length)
  {
    var i := labels.Length;
    while i > 1
      invariant 0 <= i <= labels.Length
      invariant Shuffled(labels[..], draw, i) == Shuffled(old(labels[..]), draw, labels.Length)
    {
      i := i - 1;
      var j := draw(i) % (i + 1);
      ghost var before := labels[..];
      labels[i], labels[j] := labels[j], labels[i];
      assert labels[..] == Swapped(before, i, j);
    }
  }

  /** `assign_teams`: whatever the draws, every team gets exactly `teamSize` seats. */
  method AssignTeams(seats: nat, teamSize: nat, draw: nat -> nat) returns (labels: array<nat>)
    requires teamSize >= 1 && seats % teamSize == 0 && seats / teamSize >= 2
    ensures labels.Length == seats
    ensures forall t :: 0 <= t < seats / teamSize ==> multiset(labels[..])[t] == teamSize
    ensures teamSize == 1 ==> forall i :: 0 <= i < seats ==> labels[i] == i
    ensures teamSize > 1 ==>
      var balanced := Labels(seats / teamSize, teamSize);
      labels[..] == Shuffled(balanced, draw, |balanced|)
  {
    var teams := seats / teamSize;
    if teamSize <= 1 {
      labels := new nat[seats](i => i);
      assert teams == seats;
      LabelsOfOne(seats);
      assert labels[..] == Labels(seats, 1);
    } else {
      var balanced := Labels(teams, teamSize);
      assert |balanced| == seats;
      labels := new nat[seats](i requires 0 <= i < |balanced| => balanced[i]);
      assert labels[..] == balanced;
      Shuffle(labels, draw);
      ShuffledBag(balanced, draw, seats);
    }
    forall t | 0 <= t < teams ensures multiset(labels[..])[t] == teamSize {
      LabelsBalanced(teams, teamSize, t);
    }
  }

  lemma {:induction false} LabelsOfOne(n: nat)
    ensures |Labels(n, 1)| == n && forall i :: 0 <= i < n ==> Labels(n, 1)[i] == i
  {
    if n != 0 { LabelsOfOne(n - 1); }
  }
}
