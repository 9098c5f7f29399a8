/**
 The harness pipe shared by every seat and the spectator: one stream of envelopes, one queue per
 channel. Whatever the order of the reads, each channel sees its own frames in stream order.
 */
module Gateway {
  import opened Common

  /** One line of the stream. A line on the spectator channel is a broadcast whatever else it holds. */
  datatype Envelope<F> = SeatFrame(seat: int, frame: F) | Broadcast(frame: F) | Unknown

  datatype Received<F> = Frame(frame: F) | GatewayClosed | ProtocolError

  /** The frames of one seat in a stretch of the stream. */
  function ForSeat<F>(lines: seq<Envelope<F>>, seat: int): seq<F> {
    if lines == [] then [] else
      var earlier := ForSeat(lines[..|lines| - 1], seat);
      match lines[|lines| - 1]
      case SeatFrame(s, f) => if s == seat then earlier + [f] else earlier
      case _ => earlier
  }

  function ForSpectator<F>(lines: seq<Envelope<F>>): seq<F> {
    if lines == [] then [] else
      var earlier := ForSpectator(lines[..|lines| - 1]);
      match lines[|lines| - 1]
      case Broadcast(f) => earlier + [f]
      case _ => earlier
  }

  lemma ForSnoc<F>(lines: seq<Envelope<F>>, e: Envelope<F>, seat: int)
    ensures ForSeat(lines + [e], seat)
      == if e.SeatFrame? && e.seat == seat then ForSeat(lines, seat) + [e.frame] else ForSeat(lines, seat)
    ensures ForSpectator(lines + [e]) == if e.Broadcast? then ForSpectator(lines) + [e.frame] else ForSpectator(lines)
  {
    assert (lines + [e])[..|lines|] == lines;
  }

  /** Which of the first n lines are this seat's. */
  function SeatLines<F>(lines: seq<Envelope<F>>, seat: int, n: nat): set<nat>
    requires n <= |lines|
  {
    set i: nat | i < n && lines[i].SeatFrame? && lines[i].seat == seat
  }

  function BroadcastLines<F>(lines: seq<Envelope<F>>, n: nat): set<nat>
    requires n <= |lines|
  {
    set i: nat | i < n && lines[i].Broadcast?
  }

  lemma LinesGrow<F>(lines: seq<Envelope<F>>, seat: int, n: nat)
    requires n < |lines|
    ensures SeatLines(lines, seat, n + 1)
      == SeatLines(lines, seat, n) + (if lines[n].SeatFrame? && lines[n].seat == seat then {n} else {})
    ensures BroadcastLines(lines, n + 1) == BroadcastLines(lines, n) + (if lines[n].Broadcast? then {n} else {})
    ensures n !in SeatLines(lines, seat, n) && n !in BroadcastLines(lines, n)
  {}

  /** A seat's channel is its own lines, each at its rank among them; likewise the broadcasts. */
  lemma {:induction false} ChannelExact<F>(lines: seq<Envelope<F>>, seat: int, n: nat, i: nat)
    requires i < n <= |lines|
    ensures |ForSeat(lines[..n], seat)| == |SeatLines(lines, seat, n)|
    ensures |ForSpectator(lines[..n])| == |BroadcastLines(lines, n)|
    ensures lines[i].SeatFrame? && lines[i].seat == seat ==>
      var at := |SeatLines(lines, seat, i)|;
      at < |ForSeat(lines[..n], seat)| && ForSeat(lines[..n], seat)[at] == lines[i].frame
    ensures lines[i].Broadcast? ==>
      var at := |BroadcastLines(lines, i)|;
      at < |ForSpectator(lines[..n])| && ForSpectator(lines[..n])[at] == lines[i].frame
    decreases n
  {
    hide ForSeat, ForSpectator, SeatLines, BroadcastLines;
    var m := n - 1;
    assert lines[..n] == lines[..m] + [lines[m]];
    ForSnoc(lines[..m], lines[m], seat);
    LinesGrow(lines, seat, m);
    if m == 0 {
      NoLines(lines, seat);
    } else {
      ChannelExact(lines, seat, m, if i < m then i else 0);
    }
  }

  lemma NoLines<F>(lines: seq<Envelope<F>>, seat: int)
    ensures SeatLines(lines, seat, 0) == {} && BroadcastLines(lines, 0) == {}
    ensures ForSeat(lines[..0], seat) == [] && ForSpectator(lines[..0]) == []
  {}

  function At<F>(m: map<int, seq<F>>, seat: int): seq<F> { if seat in m then m[seat] else [] }

  /** Nothing lost, nothing invented, nothing reordered on any seat's channel. */
  ghost predicate SeatsFifo<F>(read: seq<Envelope<F>>, delivered: map<int, seq<F>>, queues: map<int, seq<F>>) {
    forall seat: int {:trigger At(delivered, seat)} :: At(delivered, seat) + At(queues, seat) == ForSeat(read, seat)
  }

  ghost predicate SpectatorFifo<F>(read: seq<Envelope<F>>, delivered: seq<F>, buffer: Option<seq<F>>) {
    buffer.Some? ==> delivered + buffer.value == ForSpectator(read)
  }

  /** The seat queues once a line is routed. */
  function Routed<F>(queues: map<int, seq<F>>, e: Envelope<F>): map<int, seq<F>> {
    if e.SeatFrame? then queues[e.seat := At(queues, e.seat) + [e.frame]] else queues
  }

  /** One seat's queue once a line is routed. */
  lemma RoutedAt<F>(queues: map<int, seq<F>>, e: Envelope<F>, seat: int)
    ensures At(Routed(queues, e), seat)
      == if e.SeatFrame? && e.seat == seat then At(queues, seat) + [e.frame] else At(queues, seat)
  {}

  lemma Assoc<F>(a: seq<F>, b: seq<F>, c: seq<F>)
    ensures a + (b + c) == a + b + c
  {}

  lemma DispatchKeepsFifo<F>(read: seq<Envelope<F>>, delivered: map<int, seq<F>>, queues: map<int, seq<F>>,
      e: Envelope<F>)
    requires SeatsFifo(read, delivered, queues)
    ensures SeatsFifo(read + [e], delivered, Routed(queues, e))
  {
    hide Routed, ForSeat, At;
    forall seat: int ensures At(delivered, seat) + At(Routed(queues, e), seat) == ForSeat(read + [e], seat) {
      ForSnoc(read, e, seat);
      RoutedAt(queues, e, seat);
      assert At(delivered, seat) + At(queues, seat) == ForSeat(read, seat);
      if e.SeatFrame? && e.seat == seat { Assoc(At(delivered, seat), At(queues, seat), [e.frame]); }
    }
  }

  /** The spectator buffer, if one is attached, once a line is routed. */
  function Buffered<F>(buffer: Option<seq<F>>, e: Envelope<F>): Option<seq<F>> {
    if buffer.Some? && e.Broadcast? then Some(buffer.value + [e.frame]) else buffer
  }

  lemma BroadcastKeepsFifo<F>(read: seq<Envelope<F>>, shown: seq<F>, buffer: Option<seq<F>>, e: Envelope<F>)
    requires SpectatorFifo(read, shown, buffer)
    ensures SpectatorFifo(read + [e], shown, Buffered(buffer, e))
  {
    ForSnoc(read, e, 0);
    if buffer.Some? && e.Broadcast? {
      assert shown + (buffer.value + [e.frame]) == shown + buffer.value + [e.frame];
    }
  }

  /** Lines moved from the stream to those read, all of known channels. */
  ghost predicate ReadOn<F>(read0: seq<Envelope<F>>, stream0: seq<Envelope<F>>, read: seq<Envelope<F>>,
      stream: seq<Envelope<F>>) {
    && read0 <= read && read + stream == read0 + stream0
    && forall i :: |read0| <= i < |read| ==> !read[i].Unknown?
  }

  /** The same, and then one line of no known channel. */
  ghost predicate ReadToUnknown<F>(read0: seq<Envelope<F>>, stream0: seq<Envelope<F>>, read: seq<Envelope<F>>,
      stream: seq<Envelope<F>>) {
    read != [] && read[|read| - 1].Unknown?
    && ReadOn(read0, stream0, read[..|read| - 1], [read[|read| - 1]] + stream)
  }

  lemma NothingRead<F>(read: seq<Envelope<F>>, stream: seq<Envelope<F>>)
    ensures ReadOn(read, stream, read, stream)
  {}

  lemma ReadOne<F>(read0: seq<Envelope<F>>, stream0: seq<Envelope<F>>, read: seq<Envelope<F>>, stream: seq<Envelope<F>>)
    requires ReadOn(read0, stream0, read, stream) && stream != []
    ensures if stream[0].Unknown? then ReadToUnknown(read0, stream0, read + [stream[0]], stream[1..])
      else ReadOn(read0, stream0, read + [stream[0]], stream[1..])
  {
    var next := read + [stream[0]];
    assert [stream[0]] + stream[1..] == stream;
    assert next + stream[1..] == read + stream;
    assert next[..|next| - 1] == read;
  }

  class SubprocessGateway<F> {
    var stream: seq<Envelope<F>>
    var queues: map<int, seq<F>>
    var spectator: Option<seq<F>>
    ghost var read: seq<Envelope<F>>
    ghost var delivered: map<int, seq<F>>
    ghost var shown: seq<F>

    ghost predicate Valid()
      reads this
    {
      SeatsFifo(read, delivered, queues) && SpectatorFifo(read, shown, spectator)
    }

    constructor (stream: seq<Envelope<F>>, collectSpectator: bool)
      ensures Valid() && this.stream == stream && read == [] && delivered == map[] && shown == []
      ensures spectator.Some? <==> collectSpectator
    {
      this.stream := stream;
      queues, delivered, read, shown := map[], map[], [], [];
      spectator := if collectSpectator then Some([]) else None;
    }

    /** Reads one line and routes it; `false` is a line of no known channel. */
    method ReadAndDispatch() returns (ok: bool)
      requires Valid() && stream != []
      modifies this
      ensures read == old(read) + [old(stream)[0]] && stream == old(stream)[1..]
      ensures delivered == old(delivered) && shown == old(shown) && (spectator.Some? <==> old(spectator).Some?)
      ensures Valid() && ok == !old(stream)[0].Unknown?
    {
      hide SeatsFifo, SpectatorFifo;
      var e := stream[0];
      DispatchKeepsFifo(read, delivered, queues, e);
      BroadcastKeepsFifo(read, shown, spectator, e);
      stream, read := stream[1..], read + [e];
      match e {
        case Broadcast(f) =>
          if spectator.Some? { spectator := Some(spectator.value + [f]); }
        case SeatFrame(seat, f) =>
          queues := queues[seat := At(queues, seat) + [f]];
        case Unknown =>
      }
      ok := !e.Unknown?;
    }

    /** `recv(seat)`: the seat's next frame, stepping over the others into their queues. */
    method Recv(seat: int) returns (r: Received<F>)
      requires Valid()
      modifies this
      ensures Valid() && shown == old(shown)
      ensures r.Frame? ==> delivered == old(delivered)[seat := At(old(delivered), seat) + [r.frame]]
      ensures !r.Frame? ==> delivered == old(delivered)
      ensures r.GatewayClosed? ==> stream == [] && At(delivered, seat) == ForSeat(read, seat)
      ensures if r.ProtocolError? then ReadToUnknown(old(read), old(stream), read, stream)
        else ReadOn(old(read), old(stream), read, stream)
      ensures At(old(queues), seat) != [] ==> read == old(read) && r == Frame(At(old(queues), seat)[0])
    {
      hide SpectatorFifo, ForSeat, At, ReadToUnknown;
      while At(queues, seat) == []
        invariant Valid() && shown == old(shown) && delivered == old(delivered)
        invariant ReadOn(old(read), old(stream), read, stream)
        invariant read == old(read) ==> queues == old(queues)
        invariant At(old(queues), seat) != [] ==> read == old(read)
        decreases |stream|
      {
        if stream == [] {
          assert At(delivered, seat) + At(queues, seat) == ForSeat(read, seat);
          return GatewayClosed;
        }
        ReadOne(old(read), old(stream), read, stream);
        var ok := ReadAndDispatch();
        if !ok {
          return ProtocolError;
        }
      }
      var f := At(queues, seat)[0];
      TakeHead(read, delivered, queues, seat);
      queues := queues[seat := At(queues, seat)[1..]];
      delivered := delivered[seat := At(delivered, seat) + [f]];
      return Frame(f);
    }

    /** `recv_spectator`: the next broadcast, stepping over seat frames into their queues. */
    method RecvSpectator() returns (r: Received<F>)
      requires Valid()
      modifies this
      ensures Valid() && delivered == old(delivered)
      ensures r.Frame? ==> shown == old(shown) + [r.frame]
      ensures !r.Frame? ==> shown == old(shown)
      ensures old(spectator).None? ==> r.ProtocolError? && read == old(read) && stream == old(stream)
      ensures r.GatewayClosed? ==> stream == [] && shown == ForSpectator(read)
      ensures old(spectator).Some? ==>
        if r.ProtocolError? then ReadToUnknown(old(read), old(stream), read, stream)
        else ReadOn(old(read), old(stream), read, stream)
    {
      if spectator.None? {
        return ProtocolError;
      }
      hide SeatsFifo, SpectatorFifo, ForSpectator, ReadOn, ReadToUnknown;
      NothingRead(read, stream);
      while spectator.value == []
        invariant spectator.Some? && Valid() && shown == old(shown) && delivered == old(delivered)
        invariant ReadOn(old(read), old(stream), read, stream)
        decreases |stream|
      {
        if stream == [] {
          AllShown(read, shown, spectator);
          return GatewayClosed;
        }
        ReadOne(old(read), old(stream), read, stream);
        var ok := ReadAndDispatch();
        if !ok {
          return ProtocolError;
        }
      }
      var f := spectator.value[0];
      TakeShown(read, shown, spectator);
      spectator, shown := Some(spectator.value[1..]), shown + [f];
      return Frame(f);
    }
  }

  lemma AllShown<F>(read: seq<Envelope<F>>, shown: seq<F>, buffer: Option<seq<F>>)
    requires SpectatorFifo(read, shown, buffer) && buffer == Some([])
    ensures shown == ForSpectator(read)
  {
    hide ForSpectator;
    assert shown + [] == shown;
  }

  lemma TakeShown<F>(read: seq<Envelope<F>>, shown: seq<F>, buffer: Option<seq<F>>)
    requires SpectatorFifo(read, shown, buffer) && buffer.Some? && buffer.value != []
    ensures SpectatorFifo(read, shown + [buffer.value[0]], Some(buffer.value[1..]))
  {
    hide ForSpectator;
    var q := buffer.value;
    assert shown + q == shown + [q[0]] + q[1..];
  }

  lemma TakeHead<F>(read: seq<Envelope<F>>, delivered: map<int, seq<F>>, queues: map<int, seq<F>>, seat: int)
    requires SeatsFifo(read, delivered, queues) && At(queues, seat) != []
    ensures var q := At(queues, seat);
      SeatsFifo(read, delivered[seat := At(delivered, seat) + [q[0]]], queues[seat := q[1..]])
  {
    var q := At(queues, seat);
    var d' := delivered[seat := At(delivered, seat) + [q[0]]];
    var q' := queues[seat := q[1..]];
    forall s: int ensures At(d', s) + At(q', s) == ForSeat(read, s) {
      assert At(delivered, s) + At(queues, s) == ForSeat(read, s);
      if s == seat { assert At(d', s) + At(q', s) == At(delivered, s) + q; }
    }
  }
}
