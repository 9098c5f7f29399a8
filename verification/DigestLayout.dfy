/**
 The layout of the two digest streams by position: which byte holds what, in which byte order, and
 in which order the sections follow.
 */
module DigestLayout {
  import opened MachineInts
  import opened DigestPreimage

  // ---- Integers ------------------------------------------------------------

  lemma DivDiv(n: nat, p: nat)
    requires p > 0
    ensures n / 256 / p == n / (256 * p)
  {
    var q := n / 256 / p;
    assert n / 256 == q * p + n / 256 % p;
    var r := 256 * (n / 256 % p) + n % 256;
    assert n == 256 * (n / 256) + n % 256;
    assert n == q * (256 * p) + r by { assert 256 * (q * p) == q * (256 * p); }
    assert 0 <= r < 256 * p;
    DivUnique(n, 256 * p, q, r);
  }

  lemma DivUnique(n: int, d: int, q: int, r: int)
    requires 0 <= r < d && n == q * d + r
    ensures n / d == q
  {
    var a := n / d;
    assert n == a * d + n % d;
    if a > q { NextMultiple(q, a, d); }
    if a < q { NextMultiple(a, q, d); }
  }

  lemma NextMultiple(a: int, b: int, d: int)
    requires a < b && 0 < d
    ensures a * d + d <= b * d
  {
    var c := b - a - 1;
    assert b * d == a * d + d + c * d;
    NonNegative(c, d);
  }

  lemma NonNegative(c: int, d: int)
    requires 0 <= c && 0 <= d
    ensures 0 <= c * d
  {}

  /** Most significant byte first. */
  lemma {:induction false} BigEndianByte(n: nat, width: nat, i: nat)
    requires i < width
    ensures Pow256(width - 1 - i) > 0 && BigEndian(n, width)[i] as nat == n / Pow256(width - 1 - i) % 256
  {
    PowPositive(width - 1 - i);
    if i < width - 1 {
      BigEndianByte(n / 256, width - 1, i);
      PowPositive(width - 2 - i);
      DivDiv(n, Pow256(width - 2 - i));
    }
  }

  lemma {:induction false} PowPositive(w: nat)
    ensures Pow256(w) > 0
  {
    if w != 0 { PowPositive(w - 1); }
  }

  /** The unsigned integer in the bytes from `at` on. */
  function ReadNat(s: bytes, at: nat, width: nat): nat
    requires at + width <= |s|
  {
    FromBigEndian(s[at..at + width])
  }

  /** The signed 32-bit integer there. */
  function ReadI32(s: bytes, at: nat): int
    requires at + 4 <= |s|
  {
    var n := ReadNat(s, at, 4);
    if n < 0x8000_0000 then n else n - U32_LIMIT
  }

  /** A field in its place: what stands before it, the field, what follows. */
  lemma FieldAt(before: bytes, field: bytes, after: bytes)
    ensures (before + (field + after))[|before|..|before| + |field|] == field
  {}

  lemma ReadNatAt(before: bytes, n: nat, width: nat, after: bytes)
    requires n < Pow256(width)
    ensures ReadNat(before + (BigEndian(n, width) + after), |before|, width) == n
  {
    FieldAt(before, BigEndian(n, width), after);
    BigEndianInverse(n, width);
    hide BigEndian, FromBigEndian, Pow256;
  }

  lemma ReadI32At(before: bytes, x: i32, after: bytes)
    ensures |EncI32(x)| == 4 && ReadI32(before + (EncI32(x) + after), |before|) == x as int
  {
    hide BigEndian, FromBigEndian, Pow256;
    Widths();
    ReadNatAt(before, TwosComplement(x), 4, after);
  }

  lemma ReadVec2At(before: bytes, v: Vec2, after: bytes)
    ensures |EncVec2(v)| == 8
    ensures var s := before + (EncVec2(v) + after);
      ReadI32(s, |before|) == v.x as int && ReadI32(s, |before| + 4) == v.y as int
  {
    hide ReadI32, EncI32;
    var s := before + (EncVec2(v) + after);
    ReadI32At(before, v.x, EncI32(v.y) + after);
    assert s == before + (EncI32(v.x) + (EncI32(v.y) + after));
    ReadI32At(before + EncI32(v.x), v.y, after);
    assert s == (before + EncI32(v.x)) + (EncI32(v.y) + after);
  }

  lemma ReadLenAt(before: bytes, n: nat, after: bytes)
    ensures |Len32(n)| == 4 && ReadNat(before + (Len32(n) + after), |before|, 4) == n % U32_LIMIT
  {
    hide BigEndian, FromBigEndian, Pow256;
    Widths();
    ReadNatAt(before, n % U32_LIMIT, 4, after);
  }

  // ---- Buttons -------------------------------------------------------------

  /** One bit per button: fire, jump, ability, reload from the lowest up, and no other. */
  lemma ButtonBits(b: ActionButtons)
    ensures Bits(b) < 16
    ensures Bits(b) % 2 == 1 <==> b.fire
    ensures Bits(b) / 2 % 2 == 1 <==> b.jump
    ensures Bits(b) / 4 % 2 == 1 <==> b.ability
    ensures Bits(b) / 8 % 2 == 1 <==> b.reload
  {}

  // ---- Elements ------------------------------------------------------------

  lemma SeatLayout(s: SeatInfo)
    ensures var e := EncSeat(s);
      && |e| == 7 + |s.controller| && e[0] == s.seat && ReadNat(e, 1, 2) == s.team as nat
      && ReadNat(e, 3, 4) == |s.controller| % U32_LIMIT && e[7..] == s.controller
  {
    hide BigEndian, FromBigEndian, Pow256, ReadNat;
    var e := EncSeat(s);
    Widths();
    ReadNatAt([s.seat], s.team as nat, 2, Blob(s.controller));
    ReadLenAt([s.seat] + EncU16(s.team), |s.controller|, s.controller);
    assert e == ([s.seat] + EncU16(s.team)) + (Len32(|s.controller|) + s.controller);
  }

  lemma BlockerLayout(b: Blocker)
    ensures var e := EncBlocker(b);
      && |e| == 20
      && ReadI32(e, 0) == b.min.x as int && ReadI32(e, 4) == b.min.y as int
      && ReadI32(e, 8) == b.max.x as int && ReadI32(e, 12) == b.max.y as int
      && ReadI32(e, 16) == b.height as int
  {
    hide ReadI32, EncVec2, EncI32;
    var e := EncBlocker(b);
    ReadVec2At([], b.min, EncVec2(b.max) + EncI32(b.height));
    assert [] + e == e;
    ReadVec2At(EncVec2(b.min), b.max, EncI32(b.height));
    ReadI32At(EncVec2(b.min) + EncVec2(b.max), b.height, []);
    assert e == (EncVec2(b.min) + EncVec2(b.max)) + (EncI32(b.height) + []);
  }

  lemma PickupLayout(p: PickupSpawn)
    ensures var e := EncPickup(p);
      && |e| == 11 && e[0] == (match p.kind case Health => 0 case Ammo => 1 case Shield => 2)
      && ReadI32(e, 1) == p.position.x as int && ReadI32(e, 5) == p.position.y as int
      && ReadNat(e, 9, 2) == p.amount as nat
  {
    hide ReadI32, EncVec2, BigEndian, FromBigEndian, Pow256, ReadNat;
    var e, kind := EncPickup(p), [KindByte(p.kind)];
    Widths();
    ReadVec2At(kind, p.position, EncU16(p.amount));
    ReadNatAt(kind + EncVec2(p.position), p.amount as nat, 2, []);
    assert e == (kind + EncVec2(p.position)) + (EncU16(p.amount) + []);
  }

  lemma ActionLayout(a: SeatAction)
    ensures var e := EncAction(a);
      && |e| == 12 && e[0] == a.seat
      && ReadI32(e, 1) == a.intent.moveDir.x as int && ReadI32(e, 5) == a.intent.moveDir.y as int
      && ReadNat(e, 9, 2) == a.intent.aim as nat && e[11] == Bits(a.intent.buttons)
  {
    hide ReadI32, EncVec2, BigEndian, FromBigEndian, Pow256, ReadNat, Bits;
    var e, i := EncAction(a), a.intent;
    Widths();
    ReadVec2At([a.seat], i.moveDir, EncU16(i.aim) + [Bits(i.buttons)]);
    ReadNatAt([a.seat] + EncVec2(i.moveDir), i.aim as nat, 2, [Bits(i.buttons)]);
    assert e == ([a.seat] + EncVec2(i.moveDir)) + (EncU16(i.aim) + [Bits(i.buttons)]);
  }

  // ---- Vectors -------------------------------------------------------------

  lemma VectorCount<T>(enc: T -> bytes, xs: seq<T>)
    ensures var v := Vector(enc, xs);
      |v| == 4 + |EncodeAll(enc, xs)| && ReadNat(v, 0, 4) == |xs| % U32_LIMIT && v[4..] == EncodeAll(enc, xs)
  {
    hide ReadNat, EncodeAll;
    ReadLenAt([], |xs|, EncodeAll(enc, xs));
    assert [] + Vector(enc, xs) == Vector(enc, xs);
  }

  lemma {:induction false} EncodeSplit<T>(enc: T -> bytes, xs: seq<T>, ys: seq<T>)
    ensures EncodeAll(enc, xs + ys) == EncodeAll(enc, xs) + EncodeAll(enc, ys)
    decreases |ys|
  {
    if ys == [] {
      assert xs + ys == xs;
    } else {
      var n := |ys| - 1;
      EncodeSplit(enc, xs, ys[..n]);
      assert (xs + ys)[..|xs| + n] == xs + ys[..n] && (xs + ys)[|xs| + n] == ys[n];
      Assoc(EncodeAll(enc, xs), EncodeAll(enc, ys[..n]), enc(ys[n]));
    }
  }

  /** The elements follow one another in order. */
  lemma ElementInPlace<T>(enc: T -> bytes, xs: seq<T>, i: nat)
    requires i < |xs|
    ensures var at := |EncodeAll(enc, xs[..i])|;
      at + |enc(xs[i])| <= |EncodeAll(enc, xs)| && EncodeAll(enc, xs)[at..at + |enc(xs[i])|] == enc(xs[i])
  {
    EncodeSplit(enc, xs[..i + 1], xs[i + 1..]);
    assert xs == xs[..i + 1] + xs[i + 1..] && xs[..i + 1][..i] == xs[..i];
    var a, b, c := EncodeAll(enc, xs[..i]), enc(xs[i]), EncodeAll(enc, xs[i + 1..]);
    assert EncodeAll(enc, xs) == a + (b + c) by { Assoc(a, b, c); }
    FieldAt(a, b, c);
  }

  /** Elements of one size stand at its multiples. */
  lemma {:induction false} FixedSize<T(!new)>(enc: T -> bytes, xs: seq<T>, size: nat)
    requires forall x :: |enc(x)| == size
    ensures |EncodeAll(enc, xs)| == size * |xs|
  {
    if xs != [] {
      FixedSize(enc, xs[..|xs| - 1], size);
      assert size * |xs| == size * (|xs| - 1) + size;
    }
  }

  /** Blockers are 20 bytes each, pickups 11, actions 12, forfeits 1. */
  lemma ElementSizes(blockers: seq<Blocker>, pickups: seq<PickupSpawn>, actions: seq<SeatAction>, forfeits: seq<u8>)
    ensures |EncodeAll(EncBlocker, blockers)| == 20 * |blockers| && |EncodeAll(EncPickup, pickups)| == 11 * |pickups|
    ensures |EncodeAll(EncAction, actions)| == 12 * |actions| && EncodeAll(EncU8, forfeits) == forfeits
  {
    forall x ensures |EncBlocker(x)| == 20 { BlockerLayout(x); }
    forall x ensures |EncPickup(x)| == 11 { PickupLayout(x); }
    forall x ensures |EncAction(x)| == 12 { ActionLayout(x); }
    hide EncBlocker, EncPickup, EncAction;
    FixedSize(EncBlocker, blockers, 20);
    FixedSize(EncPickup, pickups, 11);
    FixedSize(EncAction, actions, 12);
    BytesThemselves(forfeits);
  }

  lemma EncodeLast<T>(enc: T -> bytes, xs: seq<T>)
    requires xs != []
    ensures EncodeAll(enc, xs) == EncodeAll(enc, xs[..|xs| - 1]) + enc(xs[|xs| - 1])
  {}

  lemma {:induction false} BytesThemselves(b: bytes)
    ensures EncodeAll(EncU8, b) == b
  {
    hide EncodeAll;
    if b == [] {
      NoneEncoded(EncU8);
    } else {
      var n := |b| - 1;
      BytesThemselves(b[..n]);
      EncodeLast(EncU8, b);
      assert b == b[..n] + [b[n]];
    }
  }

  /** A tick: its number, the actions in order, the forfeiting seats. */
  lemma TickLayout(t: TickRecord)
    ensures var e := EncTick(t);
      var at := 12 + 12 * |t.actions|;
      && |e| == at + 4 + |t.forfeits| && ReadNat(e, 0, 8) == t.tick as nat
      && ReadNat(e, 8, 4) == |t.actions| % U32_LIMIT && e[12..at] == EncodeAll(EncAction, t.actions)
      && ReadNat(e, at, 4) == |t.forfeits| % U32_LIMIT && e[at + 4..] == t.forfeits
  {
    hide BigEndian, FromBigEndian, Pow256, ReadNat, EncAction, EncodeAll, Len32;
    var tick, actions, forfeits := EncU64(t.tick), EncodeAll(EncAction, t.actions), EncodeAll(EncU8, t.forfeits);
    Widths();
    ElementSizes([], [], t.actions, t.forfeits);
    var v, w := Vector(EncAction, t.actions), Vector(EncU8, t.forfeits);
    ReadNatAt([], t.tick as nat, 8, v + w);
    ReadLenAt(tick, |t.actions|, actions + w);
    ReadLenAt(tick + v, |t.forfeits|, forfeits);
    TickParts(tick, Len32(|t.actions|), actions, Len32(|t.forfeits|), forfeits);
  }

  lemma TickParts(tick: bytes, m: bytes, actions: bytes, n: bytes, forfeits: bytes)
    requires |tick| == 8 && |m| == 4 && |n| == 4
    ensures var e := tick + ((m + actions) + (n + forfeits));
      var at := 12 + |actions|;
      && |e| == at + 4 + |forfeits| && e[12..at] == actions && e[at + 4..] == forfeits
      && e == [] + (tick + ((m + actions) + (n + forfeits))) && e == tick + (m + (actions + (n + forfeits)))
      && e == (tick + (m + actions)) + (n + forfeits)
  {
    Assoc(m, actions, n + forfeits);
    Assoc(tick, m + actions, n + forfeits);
  }

  // ---- The streams ---------------------------------------------------------

  /** The sections after the header, in this order. */
  function Sections(r: ReplayRecord): bytes {
    Vector(EncSeat, r.seats) + Vector(EncBlocker, r.blockers) + Vector(EncPickup, r.pickups)
    + Blob(r.rulesCommit) + ConfigPart(r.config) + Vector(EncTick, r.ticks)
  }

  /** The header at fixed offsets, then the sections. */
  ghost predicate Header(s: bytes, r: ReplayRecord) {
    && |s| >= 54 && s[..26] == Ascii("blackfield/arena/replay/v7")
    && ReadNat(s, 26, 4) == r.protocolVersion as nat && s[30..46] == r.matchId && ReadNat(s, 46, 8) == r.seed as nat
  }

  lemma ReplayLayout(r: ReplayRecord)
    ensures Header(ReplayPreimage(r), r) && ReplayPreimage(r)[54..] == Sections(r)
  {
    hide BigEndian, FromBigEndian, Pow256, ReadNat, Vector, Blob, ConfigPart, HeaderPart, Header;
    Flatten(Vector(EncSeat, r.seats), Vector(EncBlocker, r.blockers), Vector(EncPickup, r.pickups),
      Blob(r.rulesCommit), ConfigPart(r.config), Vector(EncTick, r.ticks));
    HeaderLayout(r, Sections(r));
    assert ReplayPreimage(r) == HeaderPart(r) + Sections(r);
  }

  lemma Flatten(a: bytes, b: bytes, c: bytes, d: bytes, e: bytes, f: bytes)
    ensures a + b + c + d + e + f == a + (b + (c + (d + (e + f))))
  {
    Assoc(a + b + c + d, e, f);
    Assoc(a + b + c, d, e + f);
    Assoc(a + b, c, d + (e + f));
    Assoc(a, b, c + (d + (e + f)));
  }

  lemma HeaderLayout(r: ReplayRecord, rest: bytes)
    ensures |HeaderPart(r) + rest| >= 54 && Header(HeaderPart(r) + rest, r) && (HeaderPart(r) + rest)[54..] == rest
  {
    hide BigEndian, FromBigEndian, Pow256, ReadNat;
    var s := HeaderPart(r) + rest;
    var version, seed := EncU32(r.protocolVersion), EncU64(r.seed);
    Widths();
    assert |REPLAY_TAG| == 26;
    ReadNatAt(REPLAY_TAG, r.protocolVersion as nat, 4, r.matchId + (seed + rest));
    assert s == REPLAY_TAG + (version + (r.matchId + (seed + rest)));
    ReadNatAt(REPLAY_TAG + version + r.matchId, r.seed as nat, 8, rest);
    assert s == (REPLAY_TAG + version + r.matchId) + (seed + rest);
    assert s[..26] == REPLAY_TAG;
  }

  lemma ConfigLayout(c: MatchConfig)
    ensures var e := ConfigPart(c);
      && |e| == 16 && ReadI32(e, 0) == c.bounds.x as int && ReadI32(e, 4) == c.bounds.y as int
      && ReadNat(e, 8, 8) == c.maxTicks as nat
  {
    hide BigEndian, FromBigEndian, Pow256, ReadNat, ReadI32, EncVec2;
    var e := ConfigPart(c);
    Widths();
    ReadVec2At([], c.bounds, EncU64(c.maxTicks));
    assert [] + e == e;
    ReadNatAt(EncVec2(c.bounds), c.maxTicks as nat, 8, []);
    assert e == EncVec2(c.bounds) + (EncU64(c.maxTicks) + []);
  }

  lemma BlobLayout(b: bytes)
    ensures |Blob(b)| == 4 + |b| && ReadNat(Blob(b), 0, 4) == |b| % U32_LIMIT && Blob(b)[4..] == b
  {
    hide ReadNat;
    ReadLenAt([], |b|, b);
    assert [] + Blob(b) == Blob(b);
  }

  lemma JoinLayout(version: u32, agentId: bytes, nonce: bytes)
    ensures var s := JoinPreimage(version, agentId, nonce);
      && |s| >= 28 && s[..24] == Ascii("blackfield/arena/join/v1") && ReadNat(s, 24, 4) == version as nat
      && s[28..] == Blob(agentId) + Blob(nonce)
  {
    hide BigEndian, FromBigEndian, Pow256, ReadNat, Blob;
    Widths();
    assert |JOIN_TAG| == 24;
    ReadNatAt(JOIN_TAG, version as nat, 4, Blob(agentId) + Blob(nonce));
    assert JoinPreimage(version, agentId, nonce)[..24] == JOIN_TAG;
  }
}
