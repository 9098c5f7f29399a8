/**
 The spectator feed: one bounded lossy ring per spectator. A ring is proved, over every
 schedule of publishes and receives, to be the unread tail of what was published.
 */
module SpectatorRing {
  import opened Common

  /** What became of a message that left the ring. */
  datatype Fate<M> = Got(msg: M) | Lost(msg: M)

  /** A ring with, in order, the fate of every message that left it. */
  datatype Ring<M> = Ring(buffer: seq<M>, dropped: nat, gone: seq<Fate<M>>)

  function Empty<M>(): Ring<M> { Ring([], 0, []) }

  /** One delivery of `fan_out`: a full ring sheds its oldest message. */
  function Push<M>(capacity: nat, r: Ring<M>, m: M): Ring<M>
    requires capacity > 0
  {
    if |r.buffer| == capacity
    then Ring(r.buffer[1..] + [m], r.dropped + 1, r.gone + [Lost(r.buffer[0])])
    else r.(buffer := r.buffer + [m])
  }

  /** `recv`. */
  function Pull<M>(r: Ring<M>): Ring<M> {
    if r.buffer == [] then r else Ring(r.buffer[1..], r.dropped, r.gone + [Got(r.buffer[0])])
  }

  datatype Op<M> = Publish(msg: M) | Receive

  function StepRing<M>(capacity: nat, r: Ring<M>, op: Op<M>): Ring<M>
    requires capacity > 0
  {
    match op case Publish(m) => Push(capacity, r, m) case Receive => Pull(r)
  }

  function RunRing<M>(capacity: nat, ops: seq<Op<M>>): Ring<M>
    requires capacity > 0
  {
    if ops == [] then Empty() else StepRing(capacity, RunRing(capacity, ops[..|ops| - 1]), ops[|ops| - 1])
  }

  function Published<M>(ops: seq<Op<M>>): seq<M> {
    if ops == [] then [] else
      var earlier := Published(ops[..|ops| - 1]);
      match ops[|ops| - 1] case Publish(m) => earlier + [m] case Receive => earlier
  }

  function Messages<M>(fates: seq<Fate<M>>): (ms: seq<M>)
    ensures |ms| == |fates|
  {
    seq(|fates|, i requires 0 <= i < |fates| => fates[i].msg)
  }

  function CountLost<M>(fates: seq<Fate<M>>): nat {
    if fates == [] then 0 else
      CountLost(fates[..|fates| - 1]) + (if fates[|fates| - 1].Lost? then 1 else 0)
  }

  /** The newest message published is still in the ring unless the spectator has it. */
  ghost predicate NewestSafe<M>(r: Ring<M>, published: seq<M>) {
    published != [] ==>
      var newest := published[|published| - 1];
      if r.buffer != [] then r.buffer[|r.buffer| - 1] == newest
      else r.gone != [] && r.gone[|r.gone| - 1] == Got(newest)
  }

  /** The ring holds exactly what was published and has not left it. */
  ghost predicate Tail<M>(capacity: nat, r: Ring<M>, published: seq<M>) {
    && |r.buffer| <= capacity && published == Messages(r.gone) + r.buffer
    && r.dropped == CountLost(r.gone) && NewestSafe(r, published)
  }

  lemma GoneSnoc<M>(fates: seq<Fate<M>>, f: Fate<M>)
    ensures Messages(fates + [f]) == Messages(fates) + [f.msg]
    ensures CountLost(fates + [f]) == CountLost(fates) + (if f.Lost? then 1 else 0)
  {
    assert (fates + [f])[..|fates|] == fates;
  }

  lemma PushKeepsTail<M>(capacity: nat, r: Ring<M>, published: seq<M>, m: M)
    requires capacity > 0 && Tail(capacity, r, published)
    ensures Tail(capacity, Push(capacity, r, m), published + [m])
  {
    if |r.buffer| == capacity {
      GoneSnoc(r.gone, Lost(r.buffer[0]));
      assert r.buffer == [r.buffer[0]] + r.buffer[1..];
    }
  }

  lemma PullKeepsTail<M>(capacity: nat, r: Ring<M>, published: seq<M>)
    requires capacity > 0 && Tail(capacity, r, published)
    ensures Tail(capacity, Pull(r), published)
  {
    if r.buffer != [] {
      GoneSnoc(r.gone, Got(r.buffer[0]));
      assert r.buffer == [r.buffer[0]] + r.buffer[1..];
    }
  }

  /**
   Ring refinement, over every schedule: what was published is what left the ring, in order,
   followed by what it still holds; received plus dropped plus buffered is published; the ring
   stays within its capacity; and the newest message is never the one that is lost.
   */
  lemma {:induction false} RingRefinesHistory<M>(capacity: nat, ops: seq<Op<M>>)
    requires capacity > 0
    ensures Tail(capacity, RunRing(capacity, ops), Published(ops))
    ensures var r := RunRing(capacity, ops);
      (|r.gone| - CountLost(r.gone)) + r.dropped + |r.buffer| == |Published(ops)|
  {
    if ops != [] {
      var n := |ops| - 1;
      RingRefinesHistory(capacity, ops[..n]);
      match ops[n] {
        case Publish(m) => PushKeepsTail(capacity, RunRing(capacity, ops[..n]), Published(ops[..n]), m);
        case Receive => PullKeepsTail(capacity, RunRing(capacity, ops[..n]), Published(ops[..n]));
      }
    }
  }

  // ---- When a message is lost ----------------------------------------------

  lemma RunSnoc<M>(capacity: nat, ops: seq<Op<M>>, op: Op<M>)
    requires capacity > 0
    ensures RunRing(capacity, ops + [op]) == StepRing(capacity, RunRing(capacity, ops), op)
    ensures Published(ops + [op]) == match op case Publish(m) => Published(ops) + [m] case Receive => Published(ops)
  {
    assert (ops + [op])[..|ops|] == ops;
  }

  /** What a publish does to the ring, after any schedule: it sheds the oldest message only from a full one. */
  lemma PublishEffect<M>(capacity: nat, ops: seq<Op<M>>, m: M)
    requires capacity > 0
    ensures var r, next := RunRing(capacity, ops), RunRing(capacity, ops + [Publish(m)]);
      if |r.buffer| < capacity
      then next == Ring(r.buffer + [m], r.dropped, r.gone)
      else next == Ring(r.buffer[1..] + [m], r.dropped + 1, r.gone + [Lost(r.buffer[0])])
  {
    RunSnoc(capacity, ops, Publish(m));
    RingRefinesHistory(capacity, ops);
  }

  /** What a receive does: it takes the oldest message, if there is one. */
  lemma ReceiveEffect<M>(capacity: nat, ops: seq<Op<M>>)
    requires capacity > 0
    ensures var r, next := RunRing(capacity, ops), RunRing(capacity, ops + [Receive]);
      if r.buffer == [] then next == r else next == Ring(r.buffer[1..], r.dropped, r.gone + [Got(r.buffer[0])])
  {
    RunSnoc(capacity, ops, Receive);
  }

  /** Message i is lost only once message i + capacity is published. */
  ghost predicate LostLate<M>(capacity: nat, gone: seq<Fate<M>>, published: nat) {
    forall i :: 0 <= i < |gone| && gone[i].Lost? ==> i + capacity < published
  }

  /** Over every schedule, a message is lost only by the publish of the one a whole ring behind it. */
  lemma {:induction false} RingLoss<M>(capacity: nat, ops: seq<Op<M>>)
    requires capacity > 0
    ensures LostLate(capacity, RunRing(capacity, ops).gone, |Published(ops)|)
  {
    if ops != [] {
      var n := |ops| - 1;
      RingLoss(capacity, ops[..n]);
      RingRefinesHistory(capacity, ops[..n]);
    }
  }

  /** How many messages a reader of the same schedule has taken from an unbounded queue. */
  function Taken<M>(ops: seq<Op<M>>): nat {
    if ops == [] then 0 else
      var earlier := ops[..|ops| - 1];
      Taken(earlier) + (if ops[|ops| - 1].Receive? && Taken(earlier) < |Published(earlier)| then 1 else 0)
  }

  /** That reader never trails the publisher by more than a ring. */
  predicate KeepsUp<M>(capacity: nat, ops: seq<Op<M>>) {
    && |Published(ops)| <= Taken(ops) + capacity
    && (ops == [] || KeepsUp(capacity, ops[..|ops| - 1]))
  }

  lemma {:induction false} LosslessTaken<M>(capacity: nat, ops: seq<Op<M>>)
    requires capacity > 0 && RunRing(capacity, ops).dropped == 0
    ensures |RunRing(capacity, ops).gone| == Taken(ops)
  {
    if ops != [] {
      var n := |ops| - 1;
      LosslessTaken(capacity, ops[..n]);
      RingRefinesHistory(capacity, ops[..n]);
      hide Tail;
      TakenOne(capacity, ops);
    }
  }

  lemma TakenOne<M>(capacity: nat, ops: seq<Op<M>>)
    requires capacity > 0 && ops != [] && RunRing(capacity, ops).dropped == 0
    requires var earlier := ops[..|ops| - 1];
      && Tail(capacity, RunRing(capacity, earlier), Published(earlier))
      && |RunRing(capacity, earlier).gone| == Taken(earlier)
    ensures |RunRing(capacity, ops).gone| == Taken(ops)
  {}

  /** A spectator loses nothing if and only if it never trails by more than its ring holds. */
  lemma {:induction false} LosslessExactly<M>(capacity: nat, ops: seq<Op<M>>)
    requires capacity > 0
    ensures RunRing(capacity, ops).dropped == 0 <==> KeepsUp(capacity, ops)
  {
    if ops != [] {
      var n := |ops| - 1;
      LosslessExactly(capacity, ops[..n]);
      if RunRing(capacity, ops[..n]).dropped == 0 { LosslessTaken(capacity, ops[..n]); }
      RingRefinesHistory(capacity, ops[..n]);
      LosslessOne(capacity, ops);
    }
  }

  lemma LosslessOne<M>(capacity: nat, ops: seq<Op<M>>)
    requires capacity > 0 && ops != []
    requires var earlier := ops[..|ops| - 1];
      var r := RunRing(capacity, earlier);
      && Tail(capacity, r, Published(earlier)) && (r.dropped == 0 ==> |r.gone| == Taken(earlier))
      && (r.dropped == 0 <==> KeepsUp(capacity, earlier))
    ensures RunRing(capacity, ops).dropped == 0 <==> KeepsUp(capacity, ops)
  {}

  // ---- The feed ------------------------------------------------------------

  /** The buffer behind one spectator; `live` is whether its handle is still held. */
  class Spectator<M> {
    const capacity: nat
    var ring: seq<M>
    var dropped: nat
    var live: bool
    ghost var gone: seq<Fate<M>>
    ghost var published: seq<M>

    ghost function View(): Ring<M>
      reads this
    {
      Ring(ring, dropped, gone)
    }

    /** The ring together with everything published to it. */
    ghost function History(): (Ring<M>, seq<M>)
      reads this
    {
      (View(), published)
    }

    ghost predicate Valid()
      reads this
    {
      capacity > 0 && Tail(capacity, View(), published)
    }

    constructor (capacity: nat)
      requires capacity > 0
      ensures Valid() && this.capacity == capacity && live && View() == Empty() && published == []
    {
      this.capacity := capacity;
      ring, dropped, live := [], 0, true;
      gone, published := [], [];
    }

    /** Pulls the oldest buffered message. */
    method Recv() returns (m: Option<M>)
      requires Valid()
      modifies this
      ensures Valid() && View() == Pull(old(View())) && published == old(published) && live == old(live)
      ensures m == if old(ring) == [] then None else Some(old(ring)[0])
      ensures ring == (if old(ring) == [] then [] else old(ring)[1..]) && dropped == old(dropped)
    {
      PullKeepsTail(capacity, View(), published);
      if ring == [] {
        return None;
      }
      m := Some(ring[0]);
      gone := gone + [Got(ring[0])];
      ring := ring[1..];
    }

    method Deliver(m: M)
      requires Valid()
      modifies this
      ensures Valid() && View() == Push(capacity, old(View()), m)
      ensures published == old(published) + [m] && live == old(live)
      ensures |old(ring)| < capacity ==> ring == old(ring) + [m] && dropped == old(dropped)
      ensures |old(ring)| == capacity ==> ring == old(ring)[1..] + [m] && dropped == old(dropped) + 1
    {
      PushKeepsTail(capacity, View(), published, m);
      if |ring| == capacity {
        gone := gone + [Lost(ring[0])];
        ring := ring[1..];
        dropped := dropped + 1;
      }
      ring := ring + [m];
      published := published + [m];
    }

    /** The handle goes away. */
    method Unsubscribe()
      modifies this`live
      ensures !live
    {
      live := false;
    }
  }

  ghost function Delivered<M>(capacity: nat, h: (Ring<M>, seq<M>), m: M): (Ring<M>, seq<M>)
    requires capacity > 0
  {
    (Push(capacity, h.0, m), h.1 + [m])
  }

  /** Delivers to each of the given spectators once. */
  method DeliverAll<M>(subs: seq<Spectator<M>>, m: M)
    requires AllDistinct(subs) && forall i :: 0 <= i < |subs| ==> subs[i].Valid()
    modifies set s | s in subs
    ensures forall i :: 0 <= i < |subs| ==>
      subs[i].Valid() && subs[i].live == old(subs[i].live)
      && subs[i].History() == Delivered(subs[i].capacity, old(subs[i].History()), m)
  {
    hide Push, Tail;
    for i := 0 to |subs|
      invariant forall k :: 0 <= k < |subs| ==> subs[k].Valid() && subs[k].live == old(subs[k].live)
      invariant forall k :: 0 <= k < i ==> subs[k].History() == Delivered(subs[k].capacity, old(subs[k].History()), m)
      invariant forall k :: i <= k < |subs| ==> subs[k].History() == old(subs[k].History())
    {
      subs[i].Deliver(m);
    }
  }

  ghost predicate AllDistinct<T>(xs: seq<T>) { forall i, j :: 0 <= i < j < |xs| ==> xs[i] != xs[j] }

  class SpectatorFeed<M> {
    var subscribers: seq<Spectator<M>>
    const capacity: nat
    const maxSpectators: nat

    ghost predicate Valid()
      reads this, subscribers
    {
      && capacity > 0 && |subscribers| <= maxSpectators && AllDistinct(subscribers)
      && forall i :: 0 <= i < |subscribers| ==> subscribers[i].Valid() && subscribers[i].capacity == capacity
    }

    constructor (capacity: nat, maxSpectators: nat)
      requires capacity > 0 && maxSpectators > 0
      ensures Valid() && this.capacity == capacity && this.maxSpectators == maxSpectators && subscribers == []
    {
      this.capacity, this.maxSpectators := capacity, maxSpectators;
      subscribers := [];
    }

    /** `retain`: forgets the spectators whose handle is gone and keeps every live one. */
    method Prune()
      requires Valid()
      modifies this`subscribers
      ensures Valid()
      ensures forall s :: s in subscribers <==> s in old(subscribers) && s.live
    {
      var kept: seq<Spectator<M>> := [];
      for i := 0 to |subscribers|
        invariant |kept| <= i && AllDistinct(kept)
        invariant forall s :: s in kept <==> s in subscribers[..i] && s.live
      {
        if subscribers[i].live {
          assert subscribers[i] !in subscribers[..i];
          kept := kept + [subscribers[i]];
        }
        assert subscribers[..i + 1] == subscribers[..i] + [subscribers[i]];
      }
      assert subscribers[..|subscribers|] == subscribers;
      forall i | 0 <= i < |kept| ensures kept[i].Valid() && kept[i].capacity == capacity {
        assert kept[i] in kept && kept[i] in subscribers;
      }
      subscribers := kept;
    }

    /** Admits a spectator unless the live ones are at the cap. */
    method Subscribe() returns (s: Option<Spectator<M>>)
      requires Valid()
      modifies this`subscribers
      ensures Valid()
      ensures s.Some? ==> fresh(s.value) && s.value.live && s.value in subscribers && s.value.View() == Empty()
      ensures s.None? ==> |subscribers| == maxSpectators && forall x :: x in subscribers ==> x.live
      ensures forall x :: x in old(subscribers) && x.live ==> x in subscribers
    {
      Prune();
      if |subscribers| >= maxSpectators {
        return None;
      }
      var inner := new Spectator<M>(capacity);
      subscribers := subscribers + [inner];
      return Some(inner);
    }

    /** Delivers one message to every live spectator, never blocking on any of them. */
    method FanOut(m: M) returns (reached: nat)
      requires Valid()
      modifies this`subscribers, set s | s in subscribers
      ensures Valid() && reached == |subscribers|
      ensures forall s :: s in subscribers <==> s in old(subscribers) && old(s.live)
      ensures forall s :: s in subscribers ==> s.live && s.History() == Delivered(capacity, old(s.History()), m)
      ensures forall s :: s in old(subscribers) && !old(s.live) ==> s.History() == old(s.History())
      ensures forall s :: s in subscribers && |old(s.ring)| < capacity ==>
        s.ring == old(s.ring) + [m] && s.dropped == old(s.dropped)
      ensures forall s :: s in subscribers && |old(s.ring)| == capacity ==>
        s.ring == old(s.ring)[1..] + [m] && s.dropped == old(s.dropped) + 1
    {
      Prune();
      forall s | s in subscribers ensures s in old(subscribers) && s.Valid() && s.capacity == capacity {}
      DeliverAll(subscribers, m);
      return |subscribers|;
    }
  }
}
