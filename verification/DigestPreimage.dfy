/**
 The byte streams fed to the hash by the replay digest and by the join digest, and the
 proof that each stream determines exactly the fields it is meant to commit. Strings are
 taken as their UTF-8 bytes.
 */
module DigestPreimage {
  import opened MachineInts

  type bytes = seq<u8>
  type MatchId = b: bytes | |b| == 16 witness seq(16, _ => 0)

  datatype SeatInfo = SeatInfo(seat: u8, team: u16, controller: bytes)
  datatype Blocker = Blocker(min: Vec2, max: Vec2, height: i32)
  datatype PickupKind = Health | Ammo | Shield
  datatype PickupSpawn = PickupSpawn(kind: PickupKind, position: Vec2, amount: u16)
  datatype SeatAction = SeatAction(seat: u8, intent: ActionIntent)
  datatype TickRecord = TickRecord(tick: u64, actions: seq<SeatAction>, forfeits: seq<u8>)
  datatype MatchConfig = MatchConfig(tickHz: u16, maxTicks: u64, bounds: Vec2, seats: u8)
  datatype ReplayRecord = ReplayRecord(
    protocolVersion: u32, matchId: MatchId, seed: u64, seats: seq<SeatInfo>, blockers: seq<Blocker>,
    pickups: seq<PickupSpawn>, rulesCommit: bytes, config: MatchConfig, ticks: seq<TickRecord>)

  const U32_LIMIT: nat := 0x1_0000_0000

  // ---- Integers, big-endian ------------------------------------------------

  function Pow256(w: nat): nat { if w == 0 then 1 else 256 * Pow256(w - 1) }

  function BigEndian(n: nat, width: nat): (b: bytes)
    ensures |b| == width
  {
    if width == 0 then [] else BigEndian(n / 256, width - 1) + [(n % 256) as u8]
  }

  function FromBigEndian(b: bytes): nat {
    if |b| == 0 then 0 else FromBigEndian(b[..|b| - 1]) * 256 + b[|b| - 1] as nat
  }

  lemma {:induction false} BigEndianInverse(n: nat, width: nat)
    requires n < Pow256(width)
    ensures FromBigEndian(BigEndian(n, width)) == n
  {
    if width != 0 {
      BigEndianInverse(n / 256, width - 1);
      assert BigEndian(n, width)[..width - 1] == BigEndian(n / 256, width - 1);
    }
  }

  /** `as u32` on a length keeps the low 32 bits. */
  function Len32(n: nat): bytes { BigEndian(n % U32_LIMIT, 4) }
  function EncU8(x: u8): bytes { [x] }
  function EncU16(x: u16): bytes { BigEndian(x as nat, 2) }
  function EncU32(x: u32): bytes { BigEndian(x as nat, 4) }
  function EncU64(x: u64): bytes { BigEndian(x as nat, 8) }
  function TwosComplement(x: i32): nat { if x < 0 then x as int + U32_LIMIT else x as int }
  function EncI32(x: i32): bytes { BigEndian(TwosComplement(x), 4) }
  function EncVec2(v: Vec2): bytes { EncI32(v.x) + EncI32(v.y) }

  // ---- Peeling a common-width head off two equal streams ------------------

  lemma Peel(a: bytes, s: bytes, b: bytes, t: bytes)
    requires |a| == |b| && a + s == b + t
    ensures a == b && s == t
  {
    assert a == (a + s)[..|a|] && b == (b + t)[..|b|];
    assert s == (a + s)[|a|..] && t == (b + t)[|b|..];
  }

  lemma PeelNat(m: nat, s: bytes, n: nat, t: bytes, width: nat)
    requires m < Pow256(width) && n < Pow256(width)
    requires BigEndian(m, width) + s == BigEndian(n, width) + t
    ensures m == n && s == t
  {
    Peel(BigEndian(m, width), s, BigEndian(n, width), t);
    BigEndianInverse(m, width);
    BigEndianInverse(n, width);
  }

  lemma Widths()
    ensures Pow256(2) == 0x1_0000 && Pow256(4) == U32_LIMIT && Pow256(8) == 0x1_0000_0000_0000_0000
  {
    assert Pow256(3) == 256 * Pow256(2);
    assert Pow256(5) == 256 * Pow256(4);
    assert Pow256(7) == 256 * Pow256(6);
  }

  lemma PeelU16(x: u16, s: bytes, y: u16, t: bytes)
    requires EncU16(x) + s == EncU16(y) + t
    ensures x == y && s == t
  {
    hide BigEndian, Pow256;
    Widths();
    PeelNat(x as nat, s, y as nat, t, 2);
  }

  lemma PeelU32(x: u32, s: bytes, y: u32, t: bytes)
    requires EncU32(x) + s == EncU32(y) + t
    ensures x == y && s == t
  {
    hide BigEndian, Pow256;
    Widths();
    PeelNat(x as nat, s, y as nat, t, 4);
  }

  lemma PeelU64(x: u64, s: bytes, y: u64, t: bytes)
    requires EncU64(x) + s == EncU64(y) + t
    ensures x == y && s == t
  {
    hide BigEndian, Pow256;
    Widths();
    PeelNat(x as nat, s, y as nat, t, 8);
  }

  lemma PeelI32(x: i32, s: bytes, y: i32, t: bytes)
    requires EncI32(x) + s == EncI32(y) + t
    ensures x == y && s == t
  {
    hide BigEndian, Pow256;
    Widths();
    var m: nat, n: nat := TwosComplement(x), TwosComplement(y);
    PeelNat(m, s, n, t, 4);
  }

  lemma PeelVec2(v: Vec2, s: bytes, w: Vec2, t: bytes)
    requires EncVec2(v) + s == EncVec2(w) + t
    ensures v == w && s == t
  {
    assert EncVec2(v) + s == EncI32(v.x) + (EncI32(v.y) + s);
    assert EncVec2(w) + t == EncI32(w.x) + (EncI32(w.y) + t);
    PeelI32(v.x, EncI32(v.y) + s, w.x, EncI32(w.y) + t);
    PeelI32(v.y, s, w.y, t);
  }

  lemma PeelLen(m: nat, s: bytes, n: nat, t: bytes)
    requires m < U32_LIMIT && n < U32_LIMIT && Len32(m) + s == Len32(n) + t
    ensures m == n && s == t
  {
    hide BigEndian, Pow256;
    Widths();
    PeelNat(m, s, n, t, 4);
  }

  // ---- Length-prefixed vectors --------------------------------------------

  function EncodeAll<T>(enc: T -> bytes, xs: seq<T>): bytes {
    if |xs| == 0 then [] else EncodeAll(enc, xs[..|xs| - 1]) + enc(xs[|xs| - 1])
  }

  function Vector<T>(enc: T -> bytes, xs: seq<T>): bytes { Len32(|xs|) + EncodeAll(enc, xs) }

  /** An element encoding that can be read off the front of any stream, on valid elements. */
  ghost predicate SelfDelimiting<T(!new)>(enc: T -> bytes, valid: T -> bool) {
    forall x, s, y, t :: valid(x) && valid(y) && enc(x) + s == enc(y) + t ==> x == y && s == t
  }

  ghost predicate Short<T(!new)>(xs: seq<T>, valid: T -> bool) {
    |xs| < U32_LIMIT && forall x :: x in xs ==> valid(x)
  }

  lemma {:induction false} PeelAll<T(!new)>(enc: T -> bytes, valid: T -> bool, xs: seq<T>, s: bytes, ys: seq<T>,
      t: bytes)
    requires SelfDelimiting(enc, valid) && |xs| == |ys|
    requires forall x :: x in xs || x in ys ==> valid(x)
    requires EncodeAll(enc, xs) + s == EncodeAll(enc, ys) + t
    ensures xs == ys && s == t
    decreases |xs|
  {
    if |xs| == 0 {
      assert EncodeAll(enc, xs) + s == s && EncodeAll(enc, ys) + t == t;
    } else {
      var n := |xs| - 1;
      assert EncodeAll(enc, xs) + s == EncodeAll(enc, xs[..n]) + (enc(xs[n]) + s);
      assert EncodeAll(enc, ys) + t == EncodeAll(enc, ys[..n]) + (enc(ys[n]) + t);
      PeelAll(enc, valid, xs[..n], enc(xs[n]) + s, ys[..n], enc(ys[n]) + t);
      assert xs[n] in xs && ys[n] in ys;
      assert xs == xs[..n] + [xs[n]] && ys == ys[..n] + [ys[n]];
    }
  }

  lemma PeelVector<T(!new)>(enc: T -> bytes, valid: T -> bool, xs: seq<T>, s: bytes, ys: seq<T>, t: bytes)
    requires SelfDelimiting(enc, valid) && Short(xs, valid) && Short(ys, valid)
    requires Vector(enc, xs) + s == Vector(enc, ys) + t
    ensures xs == ys && s == t
  {
    assert Vector(enc, xs) + s == Len32(|xs|) + (EncodeAll(enc, xs) + s);
    assert Vector(enc, ys) + t == Len32(|ys|) + (EncodeAll(enc, ys) + t);
    PeelLen(|xs|, EncodeAll(enc, xs) + s, |ys|, EncodeAll(enc, ys) + t);
    PeelAll(enc, valid, xs, s, ys, t);
  }

  // ---- The elements of a replay record -------------------------------------

  predicate Any<T>(x: T) { true }

  function Blob(b: bytes): bytes { Len32(|b|) + b }

  lemma PeelBlob(a: bytes, s: bytes, b: bytes, t: bytes)
    requires |a| < U32_LIMIT && |b| < U32_LIMIT && Blob(a) + s == Blob(b) + t
    ensures a == b && s == t
  {
    assert Blob(a) + s == Len32(|a|) + (a + s) && Blob(b) + t == Len32(|b|) + (b + t);
    PeelLen(|a|, a + s, |b|, b + t);
    Peel(a, s, b, t);
  }

  function EncSeat(s: SeatInfo): bytes { EncU8(s.seat) + (EncU16(s.team) + Blob(s.controller)) }
  predicate ValidSeat(s: SeatInfo) { |s.controller| < U32_LIMIT }

  lemma PeelSeat(x: SeatInfo, s: bytes, y: SeatInfo, t: bytes)
    requires ValidSeat(x) && ValidSeat(y) && EncSeat(x) + s == EncSeat(y) + t
    ensures x == y && s == t
  {
    hide EncU16, Blob;
    assert EncSeat(x) + s == EncU8(x.seat) + (EncU16(x.team) + (Blob(x.controller) + s));
    assert EncSeat(y) + t == EncU8(y.seat) + (EncU16(y.team) + (Blob(y.controller) + t));
    Peel(EncU8(x.seat), EncU16(x.team) + (Blob(x.controller) + s), EncU8(y.seat),
      EncU16(y.team) + (Blob(y.controller) + t));
    PeelU16(x.team, Blob(x.controller) + s, y.team, Blob(y.controller) + t);
    PeelBlob(x.controller, s, y.controller, t);
    assert EncU8(x.seat)[0] == EncU8(y.seat)[0];
  }

  lemma SeatDelimits()
    ensures SelfDelimiting(EncSeat, ValidSeat)
  {
    hide EncSeat;
    forall x, s, y, t | ValidSeat(x) && ValidSeat(y) && EncSeat(x) + s == EncSeat(y) + t
      ensures x == y && s == t
    {
      PeelSeat(x, s, y, t);
    }
  }

  function EncBlocker(b: Blocker): bytes { EncVec2(b.min) + (EncVec2(b.max) + EncI32(b.height)) }

  lemma BlockerDelimits()
    ensures SelfDelimiting(EncBlocker, Any<Blocker>)
  {
    forall x, s, y, t | EncBlocker(x) + s == EncBlocker(y) + t
      ensures x == y && s == t
    {
      assert EncBlocker(x) + s == EncVec2(x.min) + (EncVec2(x.max) + (EncI32(x.height) + s));
      assert EncBlocker(y) + t == EncVec2(y.min) + (EncVec2(y.max) + (EncI32(y.height) + t));
      PeelVec2(x.min, EncVec2(x.max) + (EncI32(x.height) + s), y.min, EncVec2(y.max) + (EncI32(y.height) + t));
      PeelVec2(x.max, EncI32(x.height) + s, y.max, EncI32(y.height) + t);
      PeelI32(x.height, s, y.height, t);
    }
  }

  /** The fixed kind byte, not the enum discriminant. */
  function KindByte(k: PickupKind): u8 {
    match k case Health => 0 case Ammo => 1 case Shield => 2
  }

  function EncPickup(p: PickupSpawn): bytes { EncU8(KindByte(p.kind)) + (EncVec2(p.position) + EncU16(p.amount)) }

  lemma PickupDelimits()
    ensures SelfDelimiting(EncPickup, Any<PickupSpawn>)
  {
    forall x, s, y, t | EncPickup(x) + s == EncPickup(y) + t
      ensures x == y && s == t
    {
      var kx, ky := EncU8(KindByte(x.kind)), EncU8(KindByte(y.kind));
      assert EncPickup(x) + s == kx + (EncVec2(x.position) + (EncU16(x.amount) + s));
      assert EncPickup(y) + t == ky + (EncVec2(y.position) + (EncU16(y.amount) + t));
      Peel(kx, EncVec2(x.position) + (EncU16(x.amount) + s), ky, EncVec2(y.position) + (EncU16(y.amount) + t));
      assert kx[0] == ky[0];
      PeelVec2(x.position, EncU16(x.amount) + s, y.position, EncU16(y.amount) + t);
      PeelU16(x.amount, s, y.amount, t);
    }
  }

  /** `ActionButtons::bits`: bit 0 fire, 1 jump, 2 ability, 3 reload. */
  function Bits(b: ActionButtons): u8 {
    (if b.fire then 1 else 0) + (if b.jump then 2 else 0) + (if b.ability then 4 else 0) + (if b.reload then 8 else 0)
  }

  function EncIntent(i: ActionIntent): bytes { EncVec2(i.moveDir) + (EncU16(i.aim) + EncU8(Bits(i.buttons))) }
  function EncAction(a: SeatAction): bytes { EncU8(a.seat) + EncIntent(a.intent) }

  lemma ActionDelimits()
    ensures SelfDelimiting(EncAction, Any<SeatAction>)
  {
    forall x, s, y, t | EncAction(x) + s == EncAction(y) + t
      ensures x == y && s == t
    {
      var i, j := x.intent, y.intent;
      var bx, bt := EncU8(Bits(i.buttons)), EncU8(Bits(j.buttons));
      assert EncAction(x) + s == EncU8(x.seat) + (EncVec2(i.moveDir) + (EncU16(i.aim) + (bx + s)));
      assert EncAction(y) + t == EncU8(y.seat) + (EncVec2(j.moveDir) + (EncU16(j.aim) + (bt + t)));
      Peel(EncU8(x.seat), EncVec2(i.moveDir) + (EncU16(i.aim) + (bx + s)), EncU8(y.seat),
        EncVec2(j.moveDir) + (EncU16(j.aim) + (bt + t)));
      PeelVec2(i.moveDir, EncU16(i.aim) + (bx + s), j.moveDir, EncU16(j.aim) + (bt + t));
      PeelU16(i.aim, bx + s, j.aim, bt + t);
      Peel(bx, s, bt, t);
      assert bx[0] == bt[0];
    }
  }

  lemma ByteDelimits()
    ensures SelfDelimiting(EncU8, Any<u8>)
  {
    forall x, s, y, t | EncU8(x) + s == EncU8(y) + t
      ensures x == y && s == t
    {
      Peel(EncU8(x), s, EncU8(y), t);
      assert EncU8(x)[0] == EncU8(y)[0];
    }
  }

  function EncTick(t: TickRecord): bytes {
    EncU64(t.tick) + (Vector(EncAction, t.actions) + Vector(EncU8, t.forfeits))
  }
  predicate ValidTick(t: TickRecord) { |t.actions| < U32_LIMIT && |t.forfeits| < U32_LIMIT }

  lemma PeelTick(x: TickRecord, s: bytes, y: TickRecord, t: bytes)
    requires ValidTick(x) && ValidTick(y) && EncTick(x) + s == EncTick(y) + t
    ensures x == y && s == t
  {
    hide EncU64, Vector;
    ActionDelimits();
    ByteDelimits();
    var ax, ay := Vector(EncAction, x.actions), Vector(EncAction, y.actions);
    var fx, fy := Vector(EncU8, x.forfeits) + s, Vector(EncU8, y.forfeits) + t;
    assert EncTick(x) + s == EncU64(x.tick) + (ax + fx);
    assert EncTick(y) + t == EncU64(y.tick) + (ay + fy);
    PeelU64(x.tick, ax + fx, y.tick, ay + fy);
    PeelVector(EncAction, Any<SeatAction>, x.actions, fx, y.actions, fy);
    PeelVector(EncU8, Any<u8>, x.forfeits, s, y.forfeits, t);
  }

  lemma TickDelimits()
    ensures SelfDelimiting(EncTick, ValidTick)
  {
    hide EncTick;
    forall x, s, y, t | ValidTick(x) && ValidTick(y) && EncTick(x) + s == EncTick(y) + t
      ensures x == y && s == t
    {
      PeelTick(x, s, y, t);
    }
  }

  // ---- The replay pre-image ------------------------------------------------

  function Ascii(s: string): bytes
    requires forall i :: 0 <= i < |s| ==> s[i] < '\U{80}'
  {
    seq(|s|, i requires 0 <= i < |s| => s[i] as int as u8)
  }

  const REPLAY_TAG: bytes := Ascii("blackfield/arena/replay/v7")
  const JOIN_TAG: bytes := Ascii("blackfield/arena/join/v1")

  function HeaderPart(r: ReplayRecord): bytes {
    REPLAY_TAG + (EncU32(r.protocolVersion) + (r.matchId + EncU64(r.seed)))
  }

  function ConfigPart(c: MatchConfig): bytes { EncVec2(c.bounds) + EncU64(c.maxTicks) }

  /** Everything `ReplayRecord::digest` feeds to the hasher, in order. */
  function ReplayPreimage(r: ReplayRecord): bytes {
    HeaderPart(r) + (Vector(EncSeat, r.seats) + (Vector(EncBlocker, r.blockers) + (Vector(EncPickup, r.pickups)
      + (Blob(r.rulesCommit) + (ConfigPart(r.config) + Vector(EncTick, r.ticks))))))
  }

  /** Every length the digest casts to u32 fits in it. */
  ghost predicate LengthsFit(r: ReplayRecord) {
    && Short(r.seats, ValidSeat) && |r.blockers| < U32_LIMIT && |r.pickups| < U32_LIMIT
    && |r.rulesCommit| < U32_LIMIT && Short(r.ticks, ValidTick)
  }

  /** Agreement on every field but `tick_hz` and `config.seats`. */
  ghost predicate SameCommitted(q: ReplayRecord, r: ReplayRecord) {
    q == r.(config := r.config.(tickHz := q.config.tickHz, seats := q.config.seats))
  }

  lemma PeelHeader(q: ReplayRecord, s: bytes, r: ReplayRecord, t: bytes)
    requires HeaderPart(q) + s == HeaderPart(r) + t
    ensures q.protocolVersion == r.protocolVersion && q.matchId == r.matchId && q.seed == r.seed && s == t
  {
    var sq, sr := EncU64(q.seed) + s, EncU64(r.seed) + t;
    assert HeaderPart(q) + s == REPLAY_TAG + (EncU32(q.protocolVersion) + (q.matchId + sq));
    assert HeaderPart(r) + t == REPLAY_TAG + (EncU32(r.protocolVersion) + (r.matchId + sr));
    Peel(REPLAY_TAG, EncU32(q.protocolVersion) + (q.matchId + sq), REPLAY_TAG,
      EncU32(r.protocolVersion) + (r.matchId + sr));
    PeelU32(q.protocolVersion, q.matchId + sq, r.protocolVersion, r.matchId + sr);
    Peel(q.matchId, sq, r.matchId, sr);
    PeelU64(q.seed, s, r.seed, t);
  }

  lemma PeelConfig(c: MatchConfig, s: bytes, d: MatchConfig, t: bytes)
    requires ConfigPart(c) + s == ConfigPart(d) + t
    ensures c.bounds == d.bounds && c.maxTicks == d.maxTicks && s == t
  {
    assert ConfigPart(c) + s == EncVec2(c.bounds) + (EncU64(c.maxTicks) + s);
    assert ConfigPart(d) + t == EncVec2(d.bounds) + (EncU64(d.maxTicks) + t);
    PeelVec2(c.bounds, EncU64(c.maxTicks) + s, d.bounds, EncU64(d.maxTicks) + t);
    PeelU64(c.maxTicks, s, d.maxTicks, t);
  }

  /**
   The replay digest commits exactly the fields it should: two records feed the same bytes
   to the hash if and only if they agree on every field but `tick_hz` and `config.seats`.
   */
  lemma ReplayPreimageInjective(q: ReplayRecord, r: ReplayRecord)
    requires LengthsFit(q) && LengthsFit(r)
    ensures ReplayPreimage(q) == ReplayPreimage(r) <==> SameCommitted(q, r)
  {
    if ReplayPreimage(q) == ReplayPreimage(r) {
      var q6, r6 := Vector(EncTick, q.ticks), Vector(EncTick, r.ticks);
      var q5, r5 := ConfigPart(q.config) + q6, ConfigPart(r.config) + r6;
      var q4, r4 := Blob(q.rulesCommit) + q5, Blob(r.rulesCommit) + r5;
      var q3, r3 := Vector(EncPickup, q.pickups) + q4, Vector(EncPickup, r.pickups) + r4;
      var q2, r2 := Vector(EncBlocker, q.blockers) + q3, Vector(EncBlocker, r.blockers) + r3;
      var q1, r1 := Vector(EncSeat, q.seats) + q2, Vector(EncSeat, r.seats) + r2;
      PeelHeader(q, q1, r, r1);
      SeatDelimits();
      PeelVector(EncSeat, ValidSeat, q.seats, q2, r.seats, r2);
      BlockerDelimits();
      PeelVector(EncBlocker, Any<Blocker>, q.blockers, q3, r.blockers, r3);
      PickupDelimits();
      PeelVector(EncPickup, Any<PickupSpawn>, q.pickups, q4, r.pickups, r4);
      PeelBlob(q.rulesCommit, q5, r.rulesCommit, r5);
      PeelConfig(q.config, q6, r.config, r6);
      TickDelimits();
      assert q6 + [] == q6 && r6 + [] == r6;
      PeelVector(EncTick, ValidTick, q.ticks, [], r.ticks, []);
    }
  }

  // ---- The join pre-image --------------------------------------------------

  function JoinPreimage(version: u32, agentId: bytes, nonce: bytes): bytes {
    JOIN_TAG + (EncU32(version) + (Blob(agentId) + Blob(nonce)))
  }

  /** The join stream commits all three fields, once the agent ids fit; the nonce may be of any length. */
  lemma JoinPreimageInjective(v: u32, a: bytes, n: bytes, w: u32, b: bytes, m: bytes)
    requires |a| < U32_LIMIT && |b| < U32_LIMIT
    ensures JoinPreimage(v, a, n) == JoinPreimage(w, b, m) <==> v == w && a == b && n == m
  {
    if JoinPreimage(v, a, n) == JoinPreimage(w, b, m) {
      Peel(JOIN_TAG, EncU32(v) + (Blob(a) + Blob(n)), JOIN_TAG, EncU32(w) + (Blob(b) + Blob(m)));
      PeelU32(v, Blob(a) + Blob(n), w, Blob(b) + Blob(m));
      PeelBlob(a, Blob(n), b, Blob(m));
      assert |Blob(n)| == 4 + |n| && |Blob(m)| == 4 + |m|;
      Peel(Len32(|n|), n, Len32(|m|), m);
    }
  }

  /** The domain tags separate the two digests: no stream serves both. */
  lemma DomainsDisjoint(r: ReplayRecord, version: u32, agentId: bytes, nonce: bytes)
    ensures ReplayPreimage(r) != JoinPreimage(version, agentId, nonce)
  {
    assert ReplayPreimage(r)[17] == REPLAY_TAG[17] == 'r' as int as u8;
    assert JoinPreimage(version, agentId, nonce)[17] == JOIN_TAG[17] == 'j' as int as u8;
  }

  // ---- Past the length bound ----------------------------------------------

  /** 2^32 zero bytes: a string whose length is cast to 0. */
  ghost function LongZeros(): (z: bytes)
    ensures |z| == U32_LIMIT && forall i :: 0 <= i < |z| ==> z[i] == 0
  {
    seq(U32_LIMIT, _ => 0)
  }

  lemma LengthCastWraps(n: nat)
    ensures Len32(n + U32_LIMIT) == Len32(n)
  {
    hide BigEndian;
    assert (n + U32_LIMIT) % U32_LIMIT == n % U32_LIMIT;
  }

  ghost predicate AllZero(b: bytes) { forall i :: 0 <= i < |b| ==> b[i] == 0 }

  lemma ZerosEqual(a: bytes, b: bytes)
    requires |a| == |b| && AllZero(a) && AllZero(b)
    ensures a == b
  {}

  lemma {:induction false} BigEndianZero(width: nat)
    ensures AllZero(BigEndian(0, width))
  {
    if width != 0 { BigEndianZero(width - 1); }
  }

  lemma ZeroLengths()
    ensures AllZero(Len32(0)) && Len32(U32_LIMIT) == Len32(0) && |Len32(0)| == 4
    ensures AllZero(EncU16(0)) && AllZero(EncU8(0))
  {
    LengthCastWraps(0);
    BigEndianZero(4);
    BigEndianZero(2);
  }

  /** A blob of nothing, or of the long zeros, is all zero. */
  lemma ZeroBlobs()
    ensures AllZero(Blob([])) && |Blob([])| == 4
    ensures AllZero(Blob(LongZeros())) && |Blob(LongZeros())| == 4 + U32_LIMIT
  {
    ZeroLengths();
    hide Len32;
  }

  /** Past the length bound injectivity fails: a long agent id and a long nonce can be exchanged. */
  lemma JoinCollision(v: u32)
    ensures LongZeros() != [] && JoinPreimage(v, LongZeros(), []) == JoinPreimage(v, [], LongZeros())
  {
    ZeroBlobs();
    hide Blob, LongZeros, EncU32;
    var z := LongZeros();
    ZerosEqual(Blob(z) + Blob([]), Blob([]) + Blob(z));
  }

  lemma ZeroSeat(controller: bytes)
    requires AllZero(Blob(controller))
    ensures AllZero(EncSeat(SeatInfo(0, 0, controller)))
    ensures |EncSeat(SeatInfo(0, 0, controller))| == 3 + |Blob(controller)|
  {
    ZeroLengths();
    hide Blob;
  }

  lemma TwoSeats(a: SeatInfo, b: SeatInfo)
    ensures Vector(EncSeat, [a, b]) == Len32(2) + (EncSeat(a) + EncSeat(b))
  {
    hide EncSeat;
    assert [a, b][..1] == [a] && [a][..0] == [];
    assert EncodeAll(EncSeat, [a]) == EncSeat(a);
  }

  lemma SeatsCollide()
    ensures var long, short := SeatInfo(0, 0, LongZeros()), SeatInfo(0, 0, []);
      Vector(EncSeat, [long, short]) == Vector(EncSeat, [short, long])
  {
    var long, short := SeatInfo(0, 0, LongZeros()), SeatInfo(0, 0, []);
    ZeroBlobs();
    ZeroSeat(long.controller);
    ZeroSeat(short.controller);
    TwoSeats(long, short);
    TwoSeats(short, long);
    hide EncSeat, Vector, Len32, Blob, LongZeros;
    ZerosEqual(EncSeat(long) + EncSeat(short), EncSeat(short) + EncSeat(long));
  }

  /** The same for every replay record: with two such controllers, swapping the seats goes unnoticed. */
  lemma ReplayCollision(r: ReplayRecord)
    ensures var long, short := SeatInfo(0, 0, LongZeros()), SeatInfo(0, 0, []);
      var q, q' := r.(seats := [long, short]), r.(seats := [short, long]);
      !SameCommitted(q, q') && ReplayPreimage(q) == ReplayPreimage(q')
  {
    SeatsCollide();
    hide Vector;
    var long, short := SeatInfo(0, 0, LongZeros()), SeatInfo(0, 0, []);
    assert [long, short][0].controller != [short, long][0].controller;
  }

  // ---- The hasher, fed field by field --------------------------------------

  /** The bytes a Keccak hasher has absorbed so far. */
  class Hasher {
    var fed: bytes

    constructor ()
      ensures fed == []
    {
      fed := [];
    }

    method Update(b: bytes)
      modifies this
      ensures fed == old(fed) + b
    {
      fed := fed + b;
    }
  }

  lemma Assoc(a: bytes, b: bytes, c: bytes)
    ensures a + b + c == a + (b + c)
  {}

  lemma NoneEncoded<T>(enc: T -> bytes)
    ensures EncodeAll(enc, []) == []
  {}

  /** Absorbing one more element extends the vector part of the stream by its encoding. */
  lemma VectorGrows<T>(enc: T -> bytes, head: bytes, xs: seq<T>, i: nat)
    requires i < |xs|
    ensures head + (Len32(|xs|) + EncodeAll(enc, xs[..i])) + enc(xs[i])
         == head + (Len32(|xs|) + EncodeAll(enc, xs[..i + 1]))
  {
    assert xs[..i + 1][..i] == xs[..i];
    Assoc(Len32(|xs|), EncodeAll(enc, xs[..i]), enc(xs[i]));
    Assoc(head, Len32(|xs|) + EncodeAll(enc, xs[..i]), enc(xs[i]));
  }

  lemma Regroup3(o: bytes, a: bytes, b: bytes, c: bytes)
    ensures o + a + b + c == o + (a + (b + c))
  {
    Assoc(o + a, b, c);
    Assoc(o, a, b + c);
  }

  lemma Regroup4(o: bytes, a: bytes, b: bytes, c: bytes, d: bytes)
    ensures o + a + b + c + d == o + (a + (b + (c + d)))
  {
    Assoc(o + a + b, c, d);
    Assoc(o + a, b, c + d);
    Assoc(o, a, b + (c + d));
  }

  method FeedSeat(h: Hasher, s: SeatInfo)
    modifies h
    ensures h.fed == old(h.fed) + EncSeat(s)
  {
    h.Update(EncU8(s.seat));
    h.Update(EncU16(s.team));
    h.Update(Len32(|s.controller|));
    h.Update(s.controller);
    Regroup4(old(h.fed), EncU8(s.seat), EncU16(s.team), Len32(|s.controller|), s.controller);
  }

  method FeedSeats(h: Hasher, seats: seq<SeatInfo>)
    modifies h
    ensures h.fed == old(h.fed) + Vector(EncSeat, seats)
  {
    h.Update(Len32(|seats|));
    for i := 0 to |seats|
      invariant h.fed == old(h.fed) + (Len32(|seats|) + EncodeAll(EncSeat, seats[..i]))
    {
      VectorGrows(EncSeat, old(h.fed), seats, i);
      FeedSeat(h, seats[i]);
    }
    assert seats[..|seats|] == seats;
  }

  method FeedBlockers(h: Hasher, blockers: seq<Blocker>)
    modifies h
    ensures h.fed == old(h.fed) + Vector(EncBlocker, blockers)
  {
    hide Len32, EncVec2, EncU16, EncI32, EncodeAll;
    h.Update(Len32(|blockers|));
    NoneEncoded(EncBlocker);
    assert blockers[..0] == [];
    for i := 0 to |blockers|
      invariant h.fed == old(h.fed) + (Len32(|blockers|) + EncodeAll(EncBlocker, blockers[..i]))
    {
      var b := blockers[i];
      VectorGrows(EncBlocker, old(h.fed), blockers, i);
      ghost var absorbed := h.fed;
      h.Update(EncVec2(b.min));
      h.Update(EncVec2(b.max));
      h.Update(EncI32(b.height));
      Regroup3(absorbed, EncVec2(b.min), EncVec2(b.max), EncI32(b.height));
    }
    assert blockers[..|blockers|] == blockers;
  }

  method FeedPickups(h: Hasher, pickups: seq<PickupSpawn>)
    modifies h
    ensures h.fed == old(h.fed) + Vector(EncPickup, pickups)
  {
    hide Len32, EncVec2, EncU16, EncI32, EncodeAll;
    h.Update(Len32(|pickups|));
    NoneEncoded(EncPickup);
    assert pickups[..0] == [];
    for i := 0 to |pickups|
      invariant h.fed == old(h.fed) + (Len32(|pickups|) + EncodeAll(EncPickup, pickups[..i]))
    {
      var p := pickups[i];
      VectorGrows(EncPickup, old(h.fed), pickups, i);
      ghost var absorbed := h.fed;
      h.Update([KindByte(p.kind)]);
      h.Update(EncVec2(p.position));
      h.Update(EncU16(p.amount));
      Regroup3(absorbed, [KindByte(p.kind)], EncVec2(p.position), EncU16(p.amount));
    }
    assert pickups[..|pickups|] == pickups;
  }

  method FeedActions(h: Hasher, actions: seq<SeatAction>)
    modifies h
    ensures h.fed == old(h.fed) + Vector(EncAction, actions)
  {
    hide Len32, EncVec2, EncU16, EncI32, EncodeAll;
    h.Update(Len32(|actions|));
    NoneEncoded(EncAction);
    assert actions[..0] == [];
    for i := 0 to |actions|
      invariant h.fed == old(h.fed) + (Len32(|actions|) + EncodeAll(EncAction, actions[..i]))
    {
      var a := actions[i];
      VectorGrows(EncAction, old(h.fed), actions, i);
      ghost var absorbed := h.fed;
      h.Update([a.seat]);
      h.Update(EncVec2(a.intent.moveDir));
      h.Update(EncU16(a.intent.aim));
      h.Update([Bits(a.intent.buttons)]);
      Regroup4(absorbed, [a.seat], EncVec2(a.intent.moveDir), EncU16(a.intent.aim), [Bits(a.intent.buttons)]);
    }
    assert actions[..|actions|] == actions;
  }

  method FeedForfeits(h: Hasher, seats: seq<u8>)
    modifies h
    ensures h.fed == old(h.fed) + Vector(EncU8, seats)
  {
    h.Update(Len32(|seats|));
    for i := 0 to |seats|
      invariant h.fed == old(h.fed) + (Len32(|seats|) + EncodeAll(EncU8, seats[..i]))
    {
      VectorGrows(EncU8, old(h.fed), seats, i);
      h.Update([seats[i]]);
    }
    assert seats[..|seats|] == seats;
  }

  method FeedTick(h: Hasher, t: TickRecord)
    modifies h
    ensures h.fed == old(h.fed) + EncTick(t)
  {
    h.Update(EncU64(t.tick));
    FeedActions(h, t.actions);
    FeedForfeits(h, t.forfeits);
    Assoc(old(h.fed) + EncU64(t.tick), Vector(EncAction, t.actions), Vector(EncU8, t.forfeits));
    Assoc(old(h.fed), EncU64(t.tick), Vector(EncAction, t.actions) + Vector(EncU8, t.forfeits));
  }

  method FeedTicks(h: Hasher, ticks: seq<TickRecord>)
    modifies h
    ensures h.fed == old(h.fed) + Vector(EncTick, ticks)
  {
    h.Update(Len32(|ticks|));
    for i := 0 to |ticks|
      invariant h.fed == old(h.fed) + (Len32(|ticks|) + EncodeAll(EncTick, ticks[..i]))
    {
      VectorGrows(EncTick, old(h.fed), ticks, i);
      FeedTick(h, ticks[i]);
    }
    assert ticks[..|ticks|] == ticks;
  }

  method FeedHeader(h: Hasher, r: ReplayRecord)
    modifies h
    ensures h.fed == old(h.fed) + HeaderPart(r)
  {
    h.Update(REPLAY_TAG);
    h.Update(EncU32(r.protocolVersion));
    h.Update(r.matchId);
    h.Update(EncU64(r.seed));
    Regroup4(old(h.fed), REPLAY_TAG, EncU32(r.protocolVersion), r.matchId, EncU64(r.seed));
  }

  method FeedRulesAndConfig(h: Hasher, rules: bytes, c: MatchConfig)
    modifies h
    ensures h.fed == old(h.fed) + Blob(rules) + ConfigPart(c)
  {
    h.Update(Len32(|rules|));
    h.Update(rules);
    h.Update(EncVec2(c.bounds));
    h.Update(EncU64(c.maxTicks));
    Assoc(old(h.fed), Len32(|rules|), rules);
    Assoc(old(h.fed) + Blob(rules), EncVec2(c.bounds), EncU64(c.maxTicks));
  }

  /** `ReplayRecord::digest` up to `finalize`: the hasher has absorbed the pre-image. */
  method FeedReplay(h: Hasher, r: ReplayRecord)
    modifies h
    ensures h.fed == old(h.fed) + ReplayPreimage(r)
  {
    FeedHeader(h, r);
    FeedSeats(h, r.seats);
    FeedBlockers(h, r.blockers);
    FeedPickups(h, r.pickups);
    FeedRulesAndConfig(h, r.rulesCommit, r.config);
    FeedTicks(h, r.ticks);
    Regroup(old(h.fed), HeaderPart(r), Vector(EncSeat, r.seats), Vector(EncBlocker, r.blockers),
      Vector(EncPickup, r.pickups), Blob(r.rulesCommit), ConfigPart(r.config), Vector(EncTick, r.ticks));
  }

  lemma Regroup(o: bytes, a: bytes, b: bytes, c: bytes, d: bytes, e: bytes, f: bytes, g: bytes)
    ensures o + a + b + c + d + e + f + g == o + (a + (b + (c + (d + (e + (f + g))))))
  {
    Assoc(o + a + b + c + d + e, f, g);
    Assoc(o + a + b + c + d, e, f + g);
    Assoc(o + a + b + c, d, e + (f + g));
    Assoc(o + a + b, c, d + (e + (f + g)));
    Assoc(o + a, b, c + (d + (e + (f + g))));
    Assoc(o, a, b + (c + (d + (e + (f + g)))));
  }

  /** `join_digest` up to `finalize`. */
  method FeedJoin(h: Hasher, version: u32, agentId: bytes, nonce: bytes)
    modifies h
    ensures h.fed == old(h.fed) + JoinPreimage(version, agentId, nonce)
  {
    h.Update(JOIN_TAG);
    h.Update(EncU32(version));
    h.Update(Len32(|agentId|));
    h.Update(agentId);
    h.Update(Len32(|nonce|));
    h.Update(nonce);
    hide Len32, EncU32;
    Regroup4(old(h.fed) + JOIN_TAG + EncU32(version), Len32(|agentId|), agentId, Len32(|nonce|), nonce);
    Assoc(Len32(|agentId|), agentId, Len32(|nonce|) + nonce);
    Assoc(old(h.fed) + JOIN_TAG, EncU32(version), Blob(agentId) + Blob(nonce));
    Assoc(old(h.fed), JOIN_TAG, EncU32(version) + (Blob(agentId) + Blob(nonce)));
  }
}
