/**
 The anti-god-mode move clamp: the Rust clamp on machine integers, its Newton integer
 square root, the Python mirror on unbounded integers, and the bound both really meet.
 */
module MoveClamp {
  import opened MachineInts

  const MOVE_INTENT_SCALE := 1000

  ghost predicate IsFloorSqrt(n: int, r: int) {
    0 <= r && r * r <= n < (r + 1) * (r + 1)
  }

  lemma FloorSqrtUnique(n: int, r: int, s: int)
    requires IsFloorSqrt(n, r) && IsFloorSqrt(n, s)
    ensures r == s
  {
    if r < s {
      SquareMonotone(r + 1, s);
    } else if s < r {
      SquareMonotone(s + 1, r);
    }
  }

  lemma SquareMonotone(a: int, b: int)
    requires 0 <= a <= b
    ensures a * a <= b * b
  {
    assert a * a <= a * b <= b * b;
  }

  /** The floor square root as a function; Python's `math.isqrt`. */
  function Isqrt(n: nat): (r: nat)
    ensures IsFloorSqrt(n, r)
  {
    if n == 0 then 0 else
      var r := Isqrt(n - 1);
      if (r + 1) * (r + 1) <= n then r + 1 else r
  }

  // ---- Newton's iteration --------------------------------------------------

  lemma DivBounds(n: int, d: int)
    requires 0 <= n && 1 <= d
    ensures 0 <= n / d && (n / d) * d <= n < (n / d + 1) * d
  {
    var q := n / d;
    assert n == q * d + n % d;
    assert (q + 1) * d == q * d + d;
    if q < 0 { MulLe(q, -1, d); }
  }

  lemma MulLe(a: int, b: int, c: int)
    requires a <= b && 0 <= c
    ensures a * c <= b * c
  {}

  lemma AmGm(a: int, b: int)
    ensures 4 * (a * b) <= (a + b) * (a + b)
  {
    var d := a - b;
    assert 0 <= d * d;
    assert d * d == a * a - 2 * (a * b) + b * b;
    assert (a + b) * (a + b) == a * a + 2 * (a * b) + b * b;
  }

  lemma NewtonBound(n: int, x: int, q: int, y: int)
    requires 0 <= q && 1 <= x && n < (q + 1) * x && x + q <= 2 * y + 1
    ensures n < (y + 1) * (y + 1)
  {
    var z := y + 1;
    AmGm(x, q + 1);
    SquareMonotone(x + q + 1, 2 * z);
    assert (2 * z) * (2 * z) == 4 * (z * z);
    assert x * (q + 1) == (q + 1) * x;
  }

  /** One Newton step never falls below the root, and stops improving only at it. */
  lemma NewtonStep(n: int, x: int)
    requires 0 <= n && 1 <= x
    ensures var y := (x + n / x) / 2; n < (y + 1) * (y + 1) && (y < x || x * x <= n)
  {
    var q := n / x;
    DivBounds(n, x);
    NewtonBound(n, x, q, (x + q) / 2);
    if x <= q { MulLe(x, q, x); }
  }

  /** Where the next Newton sum stays below 2^64: a root estimate of one means n < 4. */
  lemma NewtonSumFits(n: int, x: int)
    requires 1 <= x <= n < 0x1_0000_0000_0000_0000 && x <= 0x8000_0000_0000_0000
    requires n < (x + 1) * (x + 1)
    ensures 1 <= n / x && x + n / x < 0x1_0000_0000_0000_0000 && (x + n / x) / 2 <= 0x8000_0000_0000_0000
  {
    DivBounds(n, x);
    var q := n / x;
    assert (q + 1) * x == q * x + x;
    if q < 1 { MulLe(q, 0, x); }
    if 2 <= x { MulLe(2, x, q); }
  }

  /** The loop invariant of `isqrt_u64`: both estimates are at or above the root. */
  ghost predicate Estimates(n: int, x: int, y: int) {
    && 1 <= x <= n < 0x1_0000_0000_0000_0000 && 1 <= y <= 0x8000_0000_0000_0000
    && n < (y + 1) * (y + 1) && n < (x + 1) * (x + 1)
    && (y < x || x * x <= n)
  }

  lemma EstimatesStep(n: int, x: int, y: int)
    requires Estimates(n, x, y) && y < x
    ensures 1 <= n / y && y + n / y < 0x1_0000_0000_0000_0000
    ensures Estimates(n, y, (y + n / y) / 2)
  {
    NewtonStep(n, y);
    NewtonSumFits(n, y);
  }

  lemma EstimatesStart(n: int)
    requires 2 <= n < 0x1_0000_0000_0000_0000
    ensures Estimates(n, n, n / 2 + n % 2)
  {
    HalfSquare(n, n / 2 + n % 2);
    HalfSquare(n, n);
  }

  lemma EstimatesDone(n: int, x: int, y: int)
    requires Estimates(n, x, y) && x <= y
    ensures IsFloorSqrt(n, x)
  {}

  /** `isqrt_u64`: the loop computes the floor root of every u64 and never overflows. */
  method IsqrtU64(n: u64) returns (r: u64)
    ensures IsFloorSqrt(n as int, r as int)
  {
    if n < 2 {
      return n;
    }
    var x := n;
    var y := x / 2 + x % 2;
    EstimatesStart(n as int);
    while y < x
      invariant Estimates(n as int, x as int, y as int)
      decreases x
    {
      EstimatesStep(n as int, x as int, y as int);
      x := y;
      y := (x + n / x) / 2;
    }
    EstimatesDone(n as int, x as int, y as int);
    return x;
  }

  lemma HalfSquare(n: int, y: int)
    requires 2 <= n <= 2 * y
    ensures n < (y + 1) * (y + 1)
  {
    assert (y + 1) * (y + 1) == y * y + 2 * y + 1;
    assert 0 <= y * y;
  }

  // ---- The clamp -----------------------------------------------------------

  /** Division rounding toward zero, as Rust's `/` on signed integers. */
  function TruncDiv(a: int, b: int): int
    requires b != 0
  {
    if a >= 0 then (if b > 0 then a / b else -(a / -b))
    else if b > 0 then -(-a / b) else -a / -b
  }

  /** Rust's i64 division for the positive divisors the clamp uses. */
  function TruncDivI64(a: i64, b: i64): (q: i64)
    requires b > 0 && a != -0x8000_0000_0000_0000
    ensures q as int == TruncDiv(a as int, b as int)
  {
    if a >= 0 then a / b else -(-a / b)
  }

  /** The direction both implementations are meant to produce. */
  function ClampedDir(x: int, y: int): (int, int) {
    var magSq := x * x + y * y;
    if magSq <= MOVE_INTENT_SCALE * MOVE_INTENT_SCALE then (x, y)
    else
      var mag := Isqrt(magSq);
      RootAtLeastScale(magSq);
      (TruncDiv(x * MOVE_INTENT_SCALE, mag), TruncDiv(y * MOVE_INTENT_SCALE, mag))
  }

  function MagSq(v: (int, int)): int { v.0 * v.0 + v.1 * v.1 }

  lemma RootAtLeastScale(magSq: int)
    requires 1_000_000 < magSq
    ensures 1000 <= Isqrt(magSq)
  {
    var r := Isqrt(magSq);
    if r < 1000 { SquareMonotone(r + 1, 1000); }
  }

  /** A non-negative axis scaled by 1000/m, with 1000 <= m. */
  lemma AxisScaledUp(a: int, m: int)
    requires 0 <= a && 1000 <= m
    ensures var p := a * 1000 / m; 0 <= p <= a && (p * p) * (m * m) <= 1_000_000 * (a * a)
  {
    var p := a * 1000 / m;
    DivBounds(a * 1000, m);
    MulLe(1000, m, a);
    assert (a + 1) * m == a * m + m;
    if a + 1 <= p { MulLe(a + 1, p, m); }
    MulLe(0, p, m);
    SquareMonotone(p * m, a * 1000);
    SquareOfProduct(p, m);
    SquareOfProduct(a, 1000);
  }

  lemma SquareOfProduct(a: int, b: int)
    ensures (a * b) * (a * b) == (a * a) * (b * b)
  {}

  /** Scaling one axis shrinks it, keeps its sign, and bounds its square. */
  lemma AxisScaled(x: int, m: int)
    requires 1000 <= m
    ensures var q := TruncDiv(x * 1000, m);
      && (0 <= x ==> 0 <= q <= x) && (x <= 0 ==> x <= q <= 0)
      && (q * q) * (m * m) <= 1_000_000 * (x * x)
  {
    if 0 <= x {
      AxisScaledUp(x, m);
    } else {
      AxisScaledUp(-x, m);
      assert -(x * 1000) == -x * 1000;
      var p := -x * 1000 / m;
      assert (-p) * (-p) == p * p && (-x) * (-x) == x * x;
    }
  }

  /**
   The bound the clamp meets on every input: squared magnitude at most 1_002_000, hence a
   floored magnitude of at most 1000; no axis grows and no sign flips.
   */
  lemma ClampBound(x: int, y: int)
    ensures var v := ClampedDir(x, y);
      && MagSq(v) <= 1_002_000 && Isqrt(MagSq(v)) <= 1000
      && (0 <= x ==> 0 <= v.0 <= x) && (x <= 0 ==> x <= v.0 <= 0)
      && (0 <= y ==> 0 <= v.1 <= y) && (y <= 0 ==> y <= v.1 <= 0)
  {
    var n := x * x + y * y;
    var v := ClampedDir(x, y);
    if 1_000_000 < n {
      var m := Isqrt(n);
      RootAtLeastScale(n);
      AxisScaled(x, m);
      AxisScaled(y, m);
      ScaledMagnitude(v.0 * v.0, v.1 * v.1, x * x, y * y, m);
    }
    SquareMonotone(0, Isqrt(MagSq(v)));
    if 1001 <= Isqrt(MagSq(v)) { SquareMonotone(1001, Isqrt(MagSq(v))); }
  }

  /** Squares p and q of the scaled axes against the squares a and b of the requested ones. */
  lemma ScaledMagnitude(p: int, q: int, a: int, b: int, m: int)
    requires 1000 <= m && a + b < (m + 1) * (m + 1)
    requires p * (m * m) <= 1_000_000 * a && q * (m * m) <= 1_000_000 * b
    ensures p + q <= 1_002_000
  {
    var s := p + q;
    var mm := m * m;
    assert (m + 1) * (m + 1) == mm + 2 * m + 1;
    assert s * mm == p * mm + q * mm;
    assert s * mm <= 1_000_000 * mm + 2_000_000 * m;
    MulLe(1000, m, m);
    if 1_002_001 <= s { MulLe(1_002_001, s, mm); }
  }

  lemma AxisQuotient(x: int, m: int)
    requires 0 < m
    ensures var q: int := Abs(TruncDiv(x * 1000, m)); q * m <= 1000 * Abs(x) < (q + 1) * m
  {
    var a: int := 1000 * Abs(x);
    DivBounds(a, m);
    assert x < 0 ==> -(x * 1000) == a;
  }

  /** A request that is too long is scaled by 1000 over its floored magnitude, each axis rounded toward zero. */
  lemma ClampScaled(x: int, y: int)
    requires 1_000_000 < x * x + y * y
    ensures var m: int := Isqrt(x * x + y * y);
      var v := ClampedDir(x, y);
      var p: int, q: int := Abs(v.0), Abs(v.1);
      m >= 1000 && p * m <= 1000 * Abs(x) < (p + 1) * m && q * m <= 1000 * Abs(y) < (q + 1) * m
  {
    hide ClampedDir, Isqrt, TruncDiv, Abs;
    ScaledDir(x, y);
    AxisQuotient(x, Isqrt(x * x + y * y));
    AxisQuotient(y, Isqrt(x * x + y * y));
  }

  /** So it ends at most a step short of full speed: squared magnitude at least 997_168. */
  lemma ClampReachesScale(x: int, y: int)
    requires 1_000_000 < x * x + y * y
    ensures MagSq(ClampedDir(x, y)) >= 997_168
  {
    hide ClampedDir, Isqrt, Abs;
    ClampScaled(x, y);
    ClampBound(x, y);
    var v := ClampedDir(x, y);
    AbsSquare(v.0);
    AbsSquare(v.1);
    AxesReach(x, y, Abs(v.0), Abs(v.1), Isqrt(x * x + y * y));
  }

  lemma AxesReach(x: int, y: int, p: int, q: int, m: int)
    requires 0 <= p && 0 <= q && 1000 <= m && m * m <= x * x + y * y
    requires 1000 * Abs(x) < (p + 1) * m && 1000 * Abs(y) < (q + 1) * m && p * p + q * q <= 1_002_000
    ensures p * p + q * q >= 997_168
  {
    hide Abs;
    SquareMonotone(1, m);
    AxisReach(x, p, m);
    AxisReach(y, q, m);
    ReachesScale(p, q, x * x + y * y, m * m, (p + 1) * (p + 1), (q + 1) * (q + 1), x * x, y * y);
  }

  lemma ScaledDir(x: int, y: int)
    requires 1_000_000 < x * x + y * y
    ensures var m: int := Isqrt(x * x + y * y);
      m >= 1000 && ClampedDir(x, y) == (TruncDiv(x * 1000, m), TruncDiv(y * 1000, m))
  {
    hide TruncDiv, Isqrt;
    RootAtLeastScale(x * x + y * y);
  }

  lemma AbsSquare(a: int)
    ensures Abs(a) * Abs(a) == a * a
  {}

  lemma AxisReach(x: int, p: int, m: int)
    requires 0 <= p && 0 < m && 1000 * Abs(x) < (p + 1) * m
    ensures 1_000_000 * (x * x) <= ((p + 1) * (p + 1)) * (m * m)
  {
    var a: int := Abs(x);
    SquareMonotone(a * 1000, (p + 1) * m);
    SquareOfProduct(a, 1000);
    SquareOfProduct(p + 1, m);
    AbsSquare(x);
  }

  lemma ReachesScale(p: int, q: int, n: int, mm: int, pp: int, qq: int, xx: int, yy: int)
    requires 0 <= p && 0 <= q && 0 < mm <= n == xx + yy
    requires pp == (p + 1) * (p + 1) && qq == (q + 1) * (q + 1)
    requires 1_000_000 * xx <= pp * mm && 1_000_000 * yy <= qq * mm && p * p + q * q <= 1_002_000
    ensures p * p + q * q >= 997_168
  {
    var s := pp + qq;
    assert s * mm == pp * mm + qq * mm;
    if s <= 999_999 { MulLe(s, 999_999, mm); }
    assert pp == p * p + 2 * p + 1 && qq == q * q + 2 * q + 1;
    SumBound(p, q);
  }

  lemma SumBound(p: int, q: int)
    requires 0 <= p && 0 <= q && p * p + q * q <= 1_002_000
    ensures p + q <= 1415
  {
    var d := p - q;
    assert (p + q) * (p + q) + d * d == 2 * (p * p + q * q);
    assert 0 <= d * d;
    if p + q >= 1416 { SquareMonotone(1416, p + q); }
  }

  lemma ClampPasses(x: int, y: int)
    requires x * x + y * y < 1_002_001
    ensures ClampedDir(x, y) == (x, y)
  {
    var n := x * x + y * y;
    if 1_000_000 < n {
      RootAtLeastScale(n);
      var m := Isqrt(n);
      if 1000 < m { SquareMonotone(1001, m); }
      assert m == 1000;
    }
  }

  /**
   Exactly the inputs the clamp returns unchanged. The source promises an output magnitude
   of at most 1000, which would be squared magnitude 1_000_000: it lets 2000 more through.
   */
  lemma ClampFixedPoints(x: int, y: int)
    ensures ClampedDir(x, y) == (x, y) <==> x * x + y * y < 1001 * 1001
  {
    var n := x * x + y * y;
    if n < 1_002_001 {
      ClampPasses(x, y);
    } else {
      hide ClampedDir;
      ClampBound(x, y);
    }
  }

  /** The clamp is idempotent: what a client clamps, the server passes through. */
  lemma ClampIdempotent(x: int, y: int)
    ensures var v := ClampedDir(x, y); ClampedDir(v.0, v.1) == v
  {
    ClampBound(x, y);
    var v := ClampedDir(x, y);
    ClampFixedPoints(v.0, v.1);
  }

  /** The documented strict cap is exceeded, e.g. by (1000, 1). */
  lemma DocumentedCapExceeded()
    ensures ClampedDir(1000, 1) == (1000, 1) && MagSq((1000, 1)) == 1_000_001
  {
    ClampFixedPoints(1000, 1);
  }

  /**
   Where the documented cap is met. A request passed through unchanged meets it exactly when
   it met it before the call; a scaled one does whenever the root is off by less than one part
   in a million, and so from magnitude 2_000_001 on, whatever the direction.
   */
  lemma DocumentedCapMet(x: int, y: int)
    ensures var n := x * x + y * y;
      var m := Isqrt(n);
      var capped := MagSq(ClampedDir(x, y)) <= 1_000_000;
      && (n < 1001 * 1001 ==> (capped <==> n <= 1_000_000))
      && (1001 * 1001 <= n && 1_000_000 * (n - m * m) < m * m ==> capped)
      && (2_000_000 < m ==> capped)
  {
    hide ClampedDir;
    ClampFixedPoints(x, y);
    var n := x * x + y * y;
    var m := Isqrt(n);
    RootNearlyExact(n, m);
    if 1001 * 1001 <= n && 1_000_000 * (n - m * m) < m * m { ScaledMeetsCap(x, y); }
  }

  lemma RootNearlyExact(n: int, m: int)
    requires IsFloorSqrt(n, m)
    ensures 2_000_000 < m ==> 1001 * 1001 <= n && 1_000_000 * (n - m * m) < m * m
  {
    assert (m + 1) * (m + 1) == m * m + 2 * m + 1;
    if 2_000_000 < m { MulLe(2_000_001, m, m); }
  }

  lemma ScaledMeetsCap(x: int, y: int)
    requires var n := x * x + y * y; var m := Isqrt(n);
      1001 * 1001 <= n && 1_000_000 * (n - m * m) < m * m
    ensures MagSq(ClampedDir(x, y)) <= 1_000_000
  {
    var n := x * x + y * y;
    var m := Isqrt(n);
    RootAtLeastScale(n);
    AxisScaled(x, m);
    AxisScaled(y, m);
    var v := ClampedDir(x, y);
    hide Isqrt, ClampedDir;
    MulLe(1000, m, 1000);
    SquareMonotone(1000, m);
    CapFromRoot(v.0 * v.0, v.1 * v.1, x * x, y * y, m * m);
  }

  lemma CapFromRoot(p: int, q: int, a: int, b: int, mm: int)
    requires 0 < mm && p * mm <= 1_000_000 * a && q * mm <= 1_000_000 * b
    requires 1_000_000 * (a + b - mm) < mm
    ensures p + q <= 1_000_000
  {
    var s := p + q;
    assert s * mm == p * mm + q * mm;
    if 1_000_001 <= s { MulLe(1_000_001, s, mm); }
  }

  /**
   Exactly when a scaled request meets the documented cap: when the two scaled axes, less their
   remainders modulo the root, stay within a thousand roots.
   */
  lemma DocumentedCapExactly(x: int, y: int)
    requires 1_000_000 < x * x + y * y
    ensures var m: int := Isqrt(x * x + y * y);
      && m > 0
      && var a, b := 1000 * Abs(x), 1000 * Abs(y);
         (MagSq(ClampedDir(x, y)) <= 1_000_000
          <==> (a - a % m) * (a - a % m) + (b - b % m) * (b - b % m) <= 1_000_000 * (m * m))
  {
    var m: int := Isqrt(x * x + y * y);
    RootAtLeastScale(x * x + y * y);
    var v := ClampedDir(x, y);
    AxisRemainder(x, m);
    AxisRemainder(y, m);
    hide ClampedDir, Isqrt;
    SquareMonotone(1, m);
    ScaledCap(v.0 * v.0, v.1 * v.1, m * m);
  }

  lemma AxisRemainder(x: int, m: int)
    requires 0 < m
    ensures var a := 1000 * Abs(x);
      var q := TruncDiv(x * 1000, m);
      (a - a % m) * (a - a % m) == (q * q) * (m * m)
  {
    var a: int := 1000 * Abs(x);
    var q := a / m;
    assert a == q * m + a % m;
    SquareOfProduct(q, m);
    assert (-q) * (-q) == q * q;
    assert x < 0 ==> -(x * 1000) == a;
  }

  lemma ScaledCap(p: int, q: int, mm: int)
    requires 0 < mm
    ensures p + q <= 1_000_000 <==> p * mm + q * mm <= 1_000_000 * mm
  {
    var s := p + q;
    assert s * mm == p * mm + q * mm;
    if s <= 1_000_000 { MulLe(s, 1_000_000, mm); } else { MulLe(1_000_001, s, mm); }
  }

  /** Just above the pass-through range a scaled request still exceeds the cap. */
  lemma DocumentedCapExceededScaled()
    ensures ClampedDir(1001, 2) == (1000, 1)
  {
    FloorSqrtUnique(1001 * 1001 + 4, Isqrt(1001 * 1001 + 4), 1001);
  }

  /** `ActionIntent::clamped` for every i32 pair: panic-free, and equal to the clamp above. */
  method Clamped(a: ActionIntent) returns (r: ActionIntent)
    ensures r.aim == a.aim && r.buttons == a.buttons
    ensures (r.moveDir.x as int, r.moveDir.y as int) == ClampedDir(a.moveDir.x as int, a.moveDir.y as int)
  {
    var x := a.moveDir.x as i64;
    var y := a.moveDir.y as i64;
    SquareBound(x as int);
    SquareBound(y as int);
    var magSq := (x * x) as u64 + (y * y) as u64;
    var max := MOVE_INTENT_SCALE as i64;
    var maxSq := (max * max) as u64;
    if magSq <= maxSq {
      return a;
    }
    var root := IsqrtU64(magSq);
    var mag := if root < 1 then 1 else root as int;
    RootAtLeastScale(magSq as int);
    FloorSqrtUnique(magSq as int, root as int, Isqrt(magSq as int));
    RootFits(magSq as int, mag);
    AxisScaled(x as int, mag);
    AxisScaled(y as int, mag);
    var dx := TruncDivI64(x * max, mag as i64);
    var dy := TruncDivI64(y * max, mag as i64);
    r := ActionIntent(Vec2(dx as i32, dy as i32), a.aim, a.buttons);
  }

  lemma SquareBound(x: int)
    requires -0x8000_0000 <= x < 0x8000_0000
    ensures 0 <= x * x <= 0x4000_0000_0000_0000
  {
    if x >= 0 { SquareMonotone(x, 0x8000_0000); } else { SquareMonotone(-x, 0x8000_0000); }
  }

  lemma RootFits(n: int, r: int)
    requires IsFloorSqrt(n, r) && n < 0x1_0000_0000_0000_0000
    ensures r < 0x1_0000_0000
  {
    if 0x1_0000_0000 <= r { SquareMonotone(0x1_0000_0000, r); }
  }

  // ---- The Python mirror ---------------------------------------------------

  function Abs(a: int): nat { if a < 0 then -a else a }

  /** `_trunc_div`. */
  function PyTruncDiv(a: int, b: int): int
    requires b != 0
  {
    var q := Abs(a) / Abs(b);
    if (a < 0) != (b < 0) then -q else q
  }

  /** `clamped` in the Python client, on Python's unbounded integers. */
  function PyClamped(x: int, y: int): (int, int) {
    var magSq := x * x + y * y;
    var maxSq := MOVE_INTENT_SCALE * MOVE_INTENT_SCALE;
    if magSq <= maxSq then (x, y)
    else
      var root := Isqrt(magSq);
      var mag := if root > 1 then root else 1;
      (PyTruncDiv(x * MOVE_INTENT_SCALE, mag), PyTruncDiv(y * MOVE_INTENT_SCALE, mag))
  }

  /** `_trunc_div` is truncation for every pair of operands, and the two clamps agree. */
  lemma PythonClampAgrees(x: int, y: int)
    ensures PyClamped(x, y) == ClampedDir(x, y)
  {
    var n := x * x + y * y;
    if 1_000_000 < n {
      RootAtLeastScale(n);
      PythonTruncDivAgrees(x * 1000, Isqrt(n));
      PythonTruncDivAgrees(y * 1000, Isqrt(n));
    }
  }

  lemma PythonTruncDivAgrees(a: int, b: int)
    requires b != 0
    ensures PyTruncDiv(a, b) == TruncDiv(a, b)
    ensures Abs(PyTruncDiv(a, b) * b) <= Abs(a) < Abs(PyTruncDiv(a, b) * b) + Abs(b)
  {
    var p: int, d: int := Abs(a), Abs(b);
    DivBounds(p, d);
    var q := p / d;
    var r := PyTruncDiv(a, b);
    assert (q + 1) * d == q * d + d;
    assert 0 <= q * d by { MulLe(0, q, d); }
    assert r * b == q * d || r * b == -(q * d);
  }
}
