/** The machine timer of Source/dev/irq.c: a compare register per hart and hart 0's tick counter. */
module Timer {

  const HARTS: nat := 4
  const CPU_FREQ: nat := 74250000
  const TIME_TICK: nat := 100
  const NEXT_VAL: nat := (CPU_FREQ / 100) / TIME_TICK
  const WRAP: nat := 0x1_0000_0000_0000_0000

  /**
   * A value of the timer state; `tick` is `gbTickCnt`. The two clocks count seconds in a signed `time_t`, whose
   * overflow C leaves undefined: they are the integers the program means.
   */
  datatype Clock = Clock(timecmp: seq<nat>, tick: nat, time: int, uptime: int) {
    predicate Valid() { |timecmp| == HARTS && tick < TIME_TICK }
  }

  datatype Event = Init(hart: nat, mtime: nat) | Tick(hart: nat)

  function After(c: Clock, e: Event): (r: Clock)
    requires c.Valid() && e.hart < HARTS
    ensures r.Valid()
  {
    match e
    case Init(h, now) => c.(timecmp := c.timecmp[h := (now + NEXT_VAL) % WRAP])
    case Tick(h) =>
      var t := c.(timecmp := c.timecmp[h := (c.timecmp[h] + NEXT_VAL) % WRAP]);
      if h != 0 then t
      else if c.tick == 0 then t.(tick := TIME_TICK - 1, time := c.time + 1, uptime := c.uptime + 1)
      else t.(tick := c.tick - 1)
  }

  function AfterAll(c: Clock, trace: seq<Event>): (r: Clock)
    requires c.Valid() && forall e :: e in trace ==> e.hart < HARTS
    ensures r.Valid()
  {
    if trace == [] then c else After(AfterAll(c, trace[..|trace| - 1]), trace[|trace| - 1])
  }

  lemma OneMore(c: Clock, trace: seq<Event>, e: Event)
    requires c.Valid() && e.hart < HARTS && forall d :: d in trace ==> d.hart < HARTS
    ensures AfterAll(c, trace + [e]) == After(AfterAll(c, trace), e)
  {
    assert (trace + [e])[..|trace|] == trace;
  }

  lemma {:induction false} Append(c: Clock, xs: seq<Event>, ys: seq<Event>)
    requires c.Valid() && forall e :: e in xs + ys ==> e.hart < HARTS
    ensures (forall e :: e in xs ==> e.hart < HARTS) && (forall e :: e in ys ==> e.hart < HARTS)
    ensures AfterAll(c, xs + ys) == AfterAll(AfterAll(c, xs), ys)
  {
    assert (forall e :: e in xs ==> e in xs + ys) && forall e :: e in ys ==> e in xs + ys;
    if ys == [] {
      assert xs + ys == xs;
    } else {
      var n := |ys| - 1;
      assert xs + ys == (xs + ys[..n]) + [ys[n]];
      assert forall e :: e in xs + ys[..n] ==> e in xs + ys;
      Append(c, xs, ys[..n]);
      OneMore(c, xs + ys[..n], ys[n]);
    }
  }

  // ---------------------------------------------------------------- whole traces

  /** Timer interrupts taken by hart h. */
  function Ticks(trace: seq<Event>, h: nat): nat {
    if trace == [] then 0
    else Ticks(trace[..|trace| - 1], h) + (if trace[|trace| - 1] == Tick(h) then 1 else 0)
  }

  lemma WrapStep(a: nat, n: nat)
    ensures ((a + n * NEXT_VAL) % WRAP + NEXT_VAL) % WRAP == (a + (n + 1) * NEXT_VAL) % WRAP
  {
  }

  /** No drift: n interrupts after its init, hart h's compare register is n+1 steps past that init. */
  lemma {:induction false} NoDrift(c: Clock, h: nat, mtime: nat, trace: seq<Event>)
    requires c.Valid() && h < HARTS && forall e :: e in trace ==> e.hart < HARTS
    requires forall e :: e in trace && e.Init? ==> e.hart != h
    ensures AfterAll(After(c, Init(h, mtime)), trace).timecmp[h] == (mtime + (Ticks(trace, h) + 1) * NEXT_VAL) % WRAP
  {
    if trace != [] {
      var before, e := trace[..|trace| - 1], trace[|trace| - 1];
      assert e in trace;
      NoDrift(c, h, mtime, before);
      WrapStep(mtime, Ticks(before, h) + 1);
    }
  }

  /** What n interrupts of hart 0 make of a counter that has just been reset. */
  predicate Elapsed(c: Clock, n: nat, time0: int, uptime0: int) {
    && c.tick == TIME_TICK - 1 - n % TIME_TICK
    && c.time == time0 + n / TIME_TICK
    && c.uptime == uptime0 + n / TIME_TICK
  }

  lemma DivStep(n: nat)
    ensures if n % TIME_TICK == TIME_TICK - 1
            then (n + 1) % TIME_TICK == 0 && (n + 1) / TIME_TICK == n / TIME_TICK + 1
            else (n + 1) % TIME_TICK == n % TIME_TICK + 1 && (n + 1) / TIME_TICK == n / TIME_TICK
  {
  }

  lemma ElapsedStep(c: Clock, e: Event, n: nat, time0: int, uptime0: int)
    requires c.Valid() && e.hart < HARTS && Elapsed(c, n, time0, uptime0)
    ensures Elapsed(After(c, e), if e == Tick(0) then n + 1 else n, time0, uptime0)
  {
    DivStep(n);
  }

  /** The clocks grow by one second per hundred interrupts of hart 0, and by nothing from the other harts. */
  lemma {:induction false} UptimeCountsHart0(c: Clock, trace: seq<Event>)
    requires c.Valid() && c.tick == TIME_TICK - 1
    requires forall e :: e in trace ==> e.hart < HARTS
    ensures Elapsed(AfterAll(c, trace), Ticks(trace, 0), c.time, c.uptime)
  {
    if trace != [] {
      var before, e := trace[..|trace| - 1], trace[|trace| - 1];
      assert e in trace;
      UptimeCountsHart0(c, before);
      ElapsedStep(AfterAll(c, before), e, Ticks(before, 0), c.time, c.uptime);
    }
  }

  /** A hundred steps of the compare register are one second of the counter, which runs at a hundredth of the CPU clock. */
  lemma HundredStepsAreASecond()
    ensures 100 * NEXT_VAL == 74250000 / 100
  {
  }

  /**
   * The clock follows the counter: if hart 0 is started at `mtime` and takes interrupts from then on, the seconds the
   * uptime has grown are the whole seconds its compare register has advanced beyond its first value.
   */
  lemma UptimeFollowsCompare(c: Clock, mtime: nat, trace: seq<Event>)
    requires c.Valid() && c.tick == TIME_TICK - 1 && forall e :: e in trace ==> e.hart < HARTS
    requires forall e :: e in trace && e.Init? ==> e.hart != 0
    ensures var r := AfterAll(After(c, Init(0, mtime)), trace);
            var advanced := Ticks(trace, 0) * NEXT_VAL;
            && r.timecmp[0] == (mtime + NEXT_VAL + advanced) % WRAP
            && r.uptime - c.uptime == advanced / (CPU_FREQ / 100) && r.time - c.time == r.uptime - c.uptime
  {
    NoDrift(c, 0, mtime, trace);
    CompareAt(mtime, Ticks(trace, 0));
    UptimeCountsHart0(After(c, Init(0, mtime)), trace);
    ElapsedSeconds(AfterAll(After(c, Init(0, mtime)), trace), Ticks(trace, 0), c.time, c.uptime);
  }

  lemma CompareAt(mtime: nat, n: nat)
    ensures (mtime + (n + 1) * NEXT_VAL) % WRAP == (mtime + NEXT_VAL + n * NEXT_VAL) % WRAP
  {
  }

  lemma ElapsedSeconds(r: Clock, n: nat, time0: int, uptime0: int)
    requires Elapsed(r, n, time0, uptime0)
    ensures r.uptime - uptime0 == (n * NEXT_VAL) / (CPU_FREQ / 100) && r.time - time0 == r.uptime - uptime0
  {
    SecondsOf(n);
  }

  lemma SecondsOf(n: nat)
    ensures (n * NEXT_VAL) / (CPU_FREQ / 100) == n / TIME_TICK
  {
    assert NEXT_VAL == 7425 && CPU_FREQ / 100 == 742500;
  }

  // ---------------------------------------------------------------- the registers

  /** The state before the first call, with the clock at `time0`. */
  function PowerUp(time0: int): (c: Clock)
    ensures c.Valid()
  {
    Clock([0, 0, 0, 0], TIME_TICK - 1, time0, 0)
  }

  class TimerUnit {
    const timecmp: array<nat>
    const time0: int
    var tick: nat
    var time: int
    var uptime: int
    ghost var trace: seq<Event>

    /** The registers are what the calls so far make of the power-up state. */
    ghost predicate Valid()
      reads this, timecmp
    {
      && timecmp.Length == HARTS && tick < TIME_TICK
      && (forall e :: e in trace ==> e.hart < HARTS)
      && Snapshot() == AfterAll(PowerUp(time0), trace)
    }

    ghost function Snapshot(): Clock
      reads this, timecmp
    {
      Clock(timecmp[..], tick, time, uptime)
    }

    constructor (time0: int)
      ensures Valid() && fresh(timecmp) && this.time0 == time0 && trace == []
    {
      timecmp := new nat[HARTS](_ => 0);
      this.time0 := time0;
      tick, time, uptime := TIME_TICK - 1, time0, 0;
      trace := [];
    }

    /** `enx_timerirq_init` on hart `hart`, with the value of the free-running counter at that moment. */
    method InitHart(hart: nat, mtime: nat)
      requires Valid() && hart < HARTS
      modifies timecmp, this`trace
      ensures Valid() && trace == old(trace) + [Init(hart, mtime)]
      ensures Snapshot() == After(old(Snapshot()), Init(hart, mtime))
    {
      timecmp[hart] := (mtime + NEXT_VAL) % WRAP;
      OneMore(PowerUp(time0), trace, Init(hart, mtime));
      trace := trace + [Init(hart, mtime)];
    }

    /** `enx_timerirq_next` on hart `hart`. */
    method Next(hart: nat)
      requires Valid() && hart < HARTS
      modifies this, timecmp
      ensures Valid() && trace == old(trace) + [Tick(hart)]
      ensures Snapshot() == After(old(Snapshot()), Tick(hart))
    {
      timecmp[hart] := (timecmp[hart] + NEXT_VAL) % WRAP;
      if hart == 0 {
        if tick == 0 {
          tick := TIME_TICK - 1;
          time := time + 1;
          uptime := uptime + 1;
        } else {
          tick := tick - 1;
        }
      }
      OneMore(PowerUp(time0), trace, Tick(hart));
      trace := trace + [Tick(hart)];
    }

    /** In the registers: a hart's compare value is (n+1) steps past its last init, n being its interrupts since. */
    lemma CompareSinceInit(before: seq<Event>, hart: nat, mtime: nat, since: seq<Event>)
      requires Valid() && hart < HARTS && trace == before + [Init(hart, mtime)] + since
      requires forall e :: e in since && e.Init? ==> e.hart != hart
      ensures timecmp[hart] == (mtime + (Ticks(since, hart) + 1) * NEXT_VAL) % WRAP
    {
      var start := before + [Init(hart, mtime)];
      assert (forall e :: e in start ==> e in trace) && forall e :: e in since ==> e in trace;
      assert forall e :: e in before ==> e in start;
      OneMore(PowerUp(time0), before, Init(hart, mtime));
      Append(PowerUp(time0), start, since);
      NoDrift(AfterAll(PowerUp(time0), before), hart, mtime, since);
      assert timecmp[hart] == Snapshot().timecmp[hart];
    }

    /** In the registers: the clocks have grown by one second per hundred interrupts of hart 0. */
    lemma ClocksCountHart0()
      requires Valid()
      ensures uptime == Ticks(trace, 0) / TIME_TICK && time == time0 + uptime
    {
      UptimeCountsHart0(PowerUp(time0), trace);
    }
  }
}
