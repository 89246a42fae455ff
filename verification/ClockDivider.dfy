/**
 * The clock dividers of the I2C, SPI, serial-flash and MDIO drivers: 32-bit unsigned arithmetic with
 * saturation.  The generic laws take the input frequency A, the factor k and the largest divider.
 */
module ClockDivider {
  import opened Arith

  const U32: nat := 0x1_0000_0000
  const APB_FREQ: nat := 37125000

  lemma MulPos(a: nat, b: nat)
    requires a > 0 && b > 0
    ensures a * b > 0
  {
  }

  /** `(A / (k * speed)) - 1` in 32-bit unsigned arithmetic: the product and the difference both wrap. */
  function Wanted(A: nat, k: nat, speed: nat): (cal: nat)
    requires A < U32 && (k * speed) % U32 != 0
    ensures cal < U32
  {
    (A / ((k * speed) % U32) - 1) % U32
  }

  /** What I2C, SPI and MDIO program. */
  function Saturated(A: nat, k: nat, max: nat, speed: nat): (d: nat)
    requires A < U32 && (k * speed) % U32 != 0
    ensures d <= max
  {
    var cal := Wanted(A, k, speed);
    if cal > max then max else cal
  }

  /** What the flash driver programs: it recognises the underflow. */
  function FlashSaturated(A: nat, k: nat, max: nat, speed: nat): (d: nat)
    requires A < U32 && (k * speed) % U32 != 0
    ensures d <= max
  {
    var cal := Wanted(A, k, speed);
    if cal <= max then cal else if cal == U32 - 1 then 0 else max
  }

  function Rate(A: nat, k: nat, d: nat): nat
    requires k > 0
  {
    MulPos(d + 1, k);
    A / ((d + 1) * k)
  }

  // ---------------------------------------------------------------- generic laws

  /** Dividing twice is dividing by the product. */
  lemma DivDiv(a: nat, m: nat, k: nat)
    requires m > 0 && k > 0
    ensures m * k > 0 && a / (m * k) == (a / k) / m
  {
    MulPos(m, k);
    DivDivGe(a, m, k, a / (m * k));
    DivDivGe(a, m, k, (a / k) / m);
  }

  lemma DivDivGe(a: nat, m: nat, k: nat, q: nat)
    requires m > 0 && k > 0
    ensures m * k > 0 && (q <= a / (m * k) <==> q <= (a / k) / m)
  {
    MulPos(m, k);
    DivGe(a, m * k, q);
    DivGe(a / k, m, q);
    DivGe(a, k, q * m);
    assert q * (m * k) == (q * m) * k;
  }

  /** The read-back rate is the floor of B/(d+1) with B = A/k. */
  lemma RateIsFloor(A: nat, k: nat, d: nat)
    requires k > 0
    ensures Rate(A, k, d) == (A / k) / (d + 1)
  {
    DivDiv(A, d + 1, k);
  }

  lemma WantedOf(A: nat, k: nat, speed: nat, p: nat, q: nat)
    requires A < U32 && 0 < p < U32 && p == k * speed && q == A / p
    ensures (k * speed) % U32 != 0 && Wanted(A, k, speed) == (q - 1) % U32
  {
    WrapSmall(p);
  }

  /** A reachable speed does not wrap, and the wanted divider is the floor of B/S, less one. */
  lemma WantedReachable(A: nat, k: nat, speed: nat)
    requires A < U32 && k > 0 && 1 <= speed <= A / k
    ensures (k * speed) % U32 != 0
    ensures Wanted(A, k, speed) == (A / k) / speed - 1 >= 0
  {
    DivGe(A, k, speed);
    MulPos(k, speed);
    DivDiv(A, speed, k);
    var p, q := k * speed, (A / k) / speed;
    assert p == speed * k;
    DivGe(A / k, speed, 1);
    DivBounds(A, k);
    DivBounds(A / k, speed);
    WantedOf(A, k, speed, p, q);
    WrapSmall(q - 1);
  }

  lemma WrapSmall(n: nat)
    requires n < U32
    ensures n % U32 == n
  {
  }

  /** Any divider not above the wanted one runs at least at the asked speed. */
  lemma NotAboveWanted(A: nat, k: nat, speed: nat, d: nat)
    requires A < U32 && k > 0 && 1 <= speed <= A / k && d <= (A / k) / speed - 1
    ensures Rate(A, k, d) >= speed
  {
    var b := A / k;
    RateIsFloor(A, k, d);
    DivGe(b, speed, d + 1);
    DivGe(b, d + 1, speed);
  }

  lemma RateAtMost(A: nat, k: nat, d: nat)
    requires k > 0
    ensures Rate(A, k, d) <= A / k
  {
    RateIsFloor(A, k, d);
    DivBounds(A / k, d + 1);
  }

  /** The programmed rate reaches the asked speed iff the hardware can: S <= A/k, wrapped products included. */
  lemma ReachesIff(A: nat, k: nat, max: nat, speed: nat)
    requires A < U32 && k > 0 && (k * speed) % U32 != 0
    ensures Rate(A, k, Saturated(A, k, max, speed)) >= speed <==> speed <= A / k
    ensures Rate(A, k, FlashSaturated(A, k, max, speed)) >= speed <==> speed <= A / k
  {
    var d, f := Saturated(A, k, max, speed), FlashSaturated(A, k, max, speed);
    if speed <= A / k {
      assert speed != 0 by { assert k * 0 == 0; }
      WantedReachable(A, k, speed);
      NotAboveWanted(A, k, speed, d);
      NotAboveWanted(A, k, speed, f);
    } else {
      RateAtMost(A, k, d);
      RateAtMost(A, k, f);
    }
  }

  /** The divider in plain arithmetic, wrapped products included: P is the 32-bit product, q the quotient. */
  lemma DividerIs(A: nat, k: nat, max: nat, speed: nat, P: nat, q: nat)
    requires A < U32 && max < U32 - 1 && P == (k * speed) % U32 && P != 0 && q == A / P
    ensures Saturated(A, k, max, speed) == if q == 0 then max else if q - 1 > max then max else q - 1
    ensures FlashSaturated(A, k, max, speed) == if q == 0 then 0 else if q - 1 > max then max else q - 1
  {
    DivBounds(A, P);
    if q > 0 { WrapSmall(q - 1); } else { UnderflowWraps(); }
  }

  /** A reachable speed whose divider does not fit gets the largest divider, and no other reachable speed a larger one than it needs. */
  lemma SlowSpeedsSaturate(A: nat, k: nat, max: nat, speed: nat)
    requires A < U32 && k > 0 && max < U32 - 1 && 1 <= speed <= A / k
    ensures (k * speed) % U32 != 0
    ensures (A / k) / speed - 1 > max ==> Saturated(A, k, max, speed) == max && FlashSaturated(A, k, max, speed) == max
    ensures (A / k) / speed - 1 <= max ==>
              Saturated(A, k, max, speed) == (A / k) / speed - 1 && FlashSaturated(A, k, max, speed) == (A / k) / speed - 1
  {
    WantedReachable(A, k, speed);
    DivBounds(A / k, speed);
    DivBounds(A, k);
  }

  lemma NextRate(A: nat, k: nat, speed: nat, d: nat)
    requires k > 0 && speed > 0 && d == (A / k) / speed
    ensures Rate(A, k, d) < speed
  {
    RateIsFloor(A, k, d);
    DivGe(A / k, speed, d + 1);
    DivGe(A / k, d + 1, speed);
  }

  /** Without saturation the next larger divider would be too slow: the programmed one is the best. */
  lemma NextIsTooSlow(A: nat, k: nat, max: nat, speed: nat)
    requires A < U32 && k > 0 && 1 <= speed <= A / k && (A / k) / speed - 1 <= max
    ensures (k * speed) % U32 != 0
    ensures Rate(A, k, Saturated(A, k, max, speed) + 1) < speed
    ensures FlashSaturated(A, k, max, speed) == Saturated(A, k, max, speed)
  {
    WantedReachable(A, k, speed);
    NextRate(A, k, speed, (A / k) / speed);
  }

  /** An unreachable speed that does not wrap underflows: slowest divider in general, fastest in the flash driver. */
  lemma Underflow(A: nat, k: nat, max: nat, speed: nat)
    requires A < U32 && k > 0 && max < U32 - 1 && A / k < speed && k * speed < U32
    ensures (k * speed) % U32 != 0
    ensures Saturated(A, k, max, speed) == max && FlashSaturated(A, k, max, speed) == 0
  {
    MulPos(k, speed);
    DivGe(A, k, speed);
    var p := k * speed;
    DivGe(A, p, 1);
    assert 1 * p == p && p == speed * k;
    WantedOf(A, k, speed, p, 0);
    UnderflowWraps();
  }

  lemma UnderflowWraps()
    ensures (0 - 1) % U32 == U32 - 1
  {
  }

  /** Nested floors: b/(b/(b/m)) is b/m. */
  lemma FloorTwice(b: nat, m: nat)
    requires m > 0 && b / m > 0
    ensures b / (b / m) >= m && b / (b / (b / m)) == b / m
  {
    var r := b / m;
    DivGe(b, m, r);
    DivGe(b, r, m);
    var n := b / r;
    DivGe(b, n, r);
    DivGe(b, r, n);
    DivGe(b, n, r + 1);
    DivGe(b, m, r + 1);
    MulLe(m, n, r + 1);
  }

  /** A divider between m and the nested one reads back the same rate. */
  lemma FloorBetween(b: nat, m: nat, n: nat)
    requires m > 0 && b / m > 0 && m <= n <= b / (b / m)
    ensures b / n == b / m
  {
    FloorTwice(b, m);
    var r, top := b / m, b / (b / m);
    DivGe(b, top, r);
    DivGe(b, n, r);
    MulLe(n, top, r);
    DivGe(b, n, r + 1);
    DivGe(b, m, r + 1);
    MulLe(m, n, r + 1);
  }

  /** Setting the clock to the rate just read back leaves that rate unchanged, for every programmable divider. */
  lemma ReadBackIsStable(A: nat, k: nat, max: nat, d: nat)
    requires 0 < k && A < U32 && (max + 1) * k <= A && d <= max
    ensures var r := Rate(A, k, d);
            && (k * r) % U32 != 0
            && Rate(A, k, Saturated(A, k, max, r)) == r
            && Rate(A, k, FlashSaturated(A, k, max, r)) == r
  {
    var b := A / k;
    RateIsFloor(A, k, d);
    var r := b / (d + 1);
    DivGe(A, k, max + 1);
    DivGe(b, d + 1, 1);
    RateAtMost(A, k, d);
    WantedReachable(A, k, r);
    FloorTwice(b, d + 1);
    var n := Saturated(A, k, max, r);
    FloorBetween(b, d + 1, n + 1);
    RateIsFloor(A, k, n);
    DivBounds(b, r);
    DivBounds(A, k);
    assert Wanted(A, k, r) != U32 - 1;
  }

  // ---------------------------------------------------------------- the four drivers

  const CHANNELS: nat := 9

  /** The read-back law on the four drivers' constants. */
  lemma DriversAreStable(d: nat)
    ensures d <= 0xFFFF ==> var r := Rate(APB_FREQ, 8, d);
              (8 * r) % U32 != 0 && Rate(APB_FREQ, 8, Saturated(APB_FREQ, 8, 0xFFFF, r)) == r
    ensures d <= 0xFF ==> var r := Rate(APB_FREQ, 4, d);
              (4 * r) % U32 != 0 && Rate(APB_FREQ, 4, Saturated(APB_FREQ, 4, 0xFF, r)) == r
    ensures d <= 255 ==> var r := Rate(APB_FREQ, 2, d);
              (2 * r) % U32 != 0 && Rate(APB_FREQ, 2, Saturated(APB_FREQ, 2, 255, r)) == r
              && Rate(APB_FREQ, 2, FlashSaturated(APB_FREQ, 2, 255, r)) == r
  {
    if d <= 0xFFFF { ReadBackIsStable(APB_FREQ, 8, 0xFFFF, d); }
    if d <= 0xFF { ReadBackIsStable(APB_FREQ, 4, 0xFF, d); }
    if d <= 255 { ReadBackIsStable(APB_FREQ, 2, 255, d); }
  }

  class I2cClocks {
    const clkDiv: array<nat>

    ghost predicate Valid() reads this, clkDiv { clkDiv.Length == CHANNELS && forall i :: 0 <= i < CHANNELS ==> clkDiv[i] <= 0xFFFF }

    constructor ()
      ensures Valid() && fresh(clkDiv)
    {
      clkDiv := new nat[CHANNELS](_ => 0);
    }

    method SetClk(nCH: nat, speed: nat)
      requires Valid() && nCH < CHANNELS && speed < U32 && (8 * speed) % U32 != 0
      modifies clkDiv
      ensures Valid() && clkDiv[..] == old(clkDiv[..])[nCH := Saturated(APB_FREQ, 8, 0xFFFF, speed)]
      ensures Rate(APB_FREQ, 8, clkDiv[nCH]) >= speed <==> speed <= APB_FREQ / 8
    {
      ReachesIff(APB_FREQ, 8, 0xFFFF, speed);
      var u32Cal := (APB_FREQ / ((8 * speed) % U32) - 1) % U32;
      clkDiv[nCH] := if u32Cal > 0xFFFF then 0xFFFF else u32Cal;
    }

    method GetClk(nCH: nat) returns (hz: nat)
      requires Valid() && nCH < CHANNELS
      ensures hz == Rate(APB_FREQ, 8, clkDiv[nCH])
    {
      hz := APB_FREQ / ((clkDiv[nCH] + 1) * 8);
    }

    /** Setting the clock to what was read back leaves the read-back rate as it was. */
    method Reapply(nCH: nat) returns (before: nat, after: nat)
      requires Valid() && nCH < CHANNELS
      modifies clkDiv
      ensures Valid() && before == after == Rate(APB_FREQ, 8, old(clkDiv[nCH]))
    {
      DriversAreStable(clkDiv[nCH]);
      RateAtMost(APB_FREQ, 8, clkDiv[nCH]);
      before := GetClk(nCH);
      SetClk(nCH, before);
      after := GetClk(nCH);
    }
  }

  class SpiClocks {
    const clkDiv: array<nat>

    ghost predicate Valid() reads this, clkDiv { clkDiv.Length == CHANNELS && forall i :: 0 <= i < CHANNELS ==> clkDiv[i] <= 0xFF }

    constructor ()
      ensures Valid() && fresh(clkDiv)
    {
      clkDiv := new nat[CHANNELS](_ => 0);
    }

    method SetClk(nCH: nat, speed: nat)
      requires Valid() && nCH < CHANNELS && speed < U32 && (4 * speed) % U32 != 0
      modifies clkDiv
      ensures Valid() && clkDiv[..] == old(clkDiv[..])[nCH := Saturated(APB_FREQ, 4, 0xFF, speed)]
      ensures Rate(APB_FREQ, 4, clkDiv[nCH]) >= speed <==> speed <= APB_FREQ / 4
    {
      ReachesIff(APB_FREQ, 4, 0xFF, speed);
      var u32Cal := (APB_FREQ / ((4 * speed) % U32) - 1) % U32;
      clkDiv[nCH] := if u32Cal > 0xFF then 0xFF else u32Cal;
    }

    method GetClk(nCH: nat) returns (hz: nat)
      requires Valid() && nCH < CHANNELS
      ensures hz == Rate(APB_FREQ, 4, clkDiv[nCH])
    {
      hz := APB_FREQ / ((clkDiv[nCH] + 1) * 4);
    }

    /** Setting the clock to what was read back leaves the read-back rate as it was. */
    method Reapply(nCH: nat) returns (before: nat, after: nat)
      requires Valid() && nCH < CHANNELS
      modifies clkDiv
      ensures Valid() && before == after == Rate(APB_FREQ, 4, old(clkDiv[nCH]))
    {
      DriversAreStable(clkDiv[nCH]);
      RateAtMost(APB_FREQ, 4, clkDiv[nCH]);
      before := GetClk(nCH);
      SetClk(nCH, before);
      after := GetClk(nCH);
    }
  }

  class FlashClock {
    var clkDiv: nat

    ghost predicate Valid() reads this { clkDiv <= 255 }

    constructor ()
      ensures Valid()
    {
      clkDiv := 0x21;
    }

    method SetClk(speed: nat)
      requires speed < U32 && (speed * 2) % U32 != 0
      modifies this
      ensures Valid() && clkDiv == FlashSaturated(APB_FREQ, 2, 255, speed)
      ensures Rate(APB_FREQ, 2, clkDiv) >= speed <==> speed <= APB_FREQ / 2
    {
      ReachesIff(APB_FREQ, 2, 255, speed);
      var u32Cal := (APB_FREQ / ((speed * 2) % U32) - 1) % U32;
      if u32Cal < 256 {
        clkDiv := u32Cal;
      } else if u32Cal == 0xFFFFFFFF {
        clkDiv := 0;
      } else {
        clkDiv := 255;
      }
    }

    method GetClk() returns (hz: nat)
      ensures hz == Rate(APB_FREQ, 2, clkDiv)
    {
      MulPos(clkDiv + 1, 2);
      hz := APB_FREQ / ((clkDiv + 1) * 2);
    }

    /** Setting the clock to what was read back leaves the read-back rate as it was. */
    method Reapply() returns (before: nat, after: nat)
      requires Valid()
      modifies this
      ensures Valid() && before == after == Rate(APB_FREQ, 2, old(clkDiv))
    {
      DriversAreStable(clkDiv);
      RateAtMost(APB_FREQ, 2, clkDiv);
      before := GetClk();
      SetClk(before);
      after := GetClk();
    }
  }

  class MdioClock {
    var clkLmt: nat

    ghost predicate Valid() reads this { clkLmt <= 255 }

    constructor ()
      ensures Valid()
    {
      clkLmt := 0xff;
    }

    method SetClk(speed: nat)
      requires speed < U32 && (speed * 2) % U32 != 0
      modifies this
      ensures Valid() && clkLmt == Saturated(APB_FREQ, 2, 255, speed)
      ensures Rate(APB_FREQ, 2, clkLmt) >= speed <==> speed <= APB_FREQ / 2
    {
      ReachesIff(APB_FREQ, 2, 255, speed);
      var u32Cal := (APB_FREQ / ((speed * 2) % U32) - 1) % U32;
      clkLmt := if u32Cal > 255 then 255 else u32Cal;
    }

    method GetClk() returns (hz: nat)
      ensures hz == Rate(APB_FREQ, 2, clkLmt)
    {
      MulPos(clkLmt + 1, 2);
      hz := APB_FREQ / ((clkLmt + 1) * 2);
    }

    /** Setting the clock to what was read back leaves the read-back rate as it was. */
    method Reapply() returns (before: nat, after: nat)
      requires Valid()
      modifies this
      ensures Valid() && before == after == Rate(APB_FREQ, 2, old(clkLmt))
    {
      DriversAreStable(clkLmt);
      RateAtMost(APB_FREQ, 2, clkLmt);
      before := GetClk();
      SetClk(before);
      after := GetClk();
    }
  }
}
