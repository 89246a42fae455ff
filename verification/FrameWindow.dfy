/** The frame-rate window of `enx_exirq_source1` in Source/dev/irq.c. */
module FrameWindow {
  import opened Arith

  const CPU_FREQ: nat := 74250000
  const WINDOW: nat := 4008 * (CPU_FREQ / 1000)   // 4.008 s in cycles
  const WRAP64: nat := 0x1_0000_0000_0000_0000
  const WRAP32: nat := 0x1_0000_0000

  /** The elapsed expression of the handler, on 64-bit cycle values; its last sum wraps. */
  function Elapsed(pre: nat, cur: nat): nat
    requires pre < WRAP64 && cur < WRAP64
  {
    if pre < cur then cur - pre else ((WRAP64 - 1 - pre) + cur + 1) % WRAP64
  }

  /** `preTime`, `gnVDI_CHG`, `gnViIrqCnt` and `gnVDI_4FPS`. */
  datatype Counter = Counter(preTime: nat, chg: nat, cnt: nat, fps: nat)

  /** A frame interrupt at an absolute cycle count, or the main loop's request to restart the window. */
  datatype Event = Frame(cycle: nat) | Change

  /** The interrupt at `cycle` ends the current window. */
  predicate Restarts(c: Counter, cycle: nat)
    requires c.preTime < WRAP64
  {
    c.chg != 0 || Elapsed(c.preTime, cycle % WRAP64) > WINDOW
  }

  function After(c: Counter, e: Event): (r: Counter)
    requires c.preTime < WRAP64
    ensures r.preTime < WRAP64
  {
    match e
    case Change => c.(chg := 2)
    case Frame(cycle) =>
      if Restarts(c, cycle)
      then Counter(cycle % WRAP64, if c.chg != 0 then c.chg - 1 else 0, 0, if c.chg != 0 then c.fps else c.cnt)
      else c.(cnt := (c.cnt + 1) % WRAP32)
  }

  function AfterAll(c: Counter, trace: seq<Event>): (r: Counter)
    requires c.preTime < WRAP64
    ensures r.preTime < WRAP64
  {
    if trace == [] then c else After(AfterAll(c, trace[..|trace| - 1]), trace[|trace| - 1])
  }

  const POWER_UP: Counter := Counter(0, 2, 0, 0)

  class FrameCounter {
    var preTime: nat
    var chg: nat
    var cnt: nat
    var fps: nat
    ghost var trace: seq<Event>

    /** The variables are what the events so far make of their initial values. */
    ghost predicate Valid() reads this { Snapshot() == AfterAll(POWER_UP, trace) }
    ghost function Snapshot(): Counter reads this { Counter(preTime, chg, cnt, fps) }

    constructor ()
      ensures Valid() && trace == []
    {
      preTime, chg, cnt, fps := 0, 2, 0, 0;
      trace := [];
    }

    /** The IRQ_ISP0 branch of the handler; `cycle` is the true cycle count, of which `rdcycle` gives 64 bits. */
    method OnFrame(cycle: nat)
      requires Valid()
      modifies this
      ensures Valid() && trace == old(trace) + [Frame(cycle)]
      ensures Snapshot() == After(old(Snapshot()), Frame(cycle))
    {
      HandleFrame(cycle);
      OneMore(POWER_UP, trace, Frame(cycle));
      trace := trace + [Frame(cycle)];
    }

    method HandleFrame(cycle: nat)
      requires preTime < WRAP64
      modifies this`preTime, this`chg, this`cnt, this`fps
      ensures Snapshot() == After(old(Snapshot()), Frame(cycle))
    {
      var curTime := cycle % WRAP64;
      var dep := if preTime < curTime then curTime - preTime else ((WRAP64 - 1 - preTime) + curTime + 1) % WRAP64;
      if chg != 0 || dep > WINDOW {
        preTime := curTime;
        if chg != 0 { chg := chg - 1; } else { fps := cnt; }
        cnt := 0;
      } else {
        cnt := (cnt + 1) % WRAP32;
      }
    }

    /** The store in isp_main.c that restarts the window. */
    method RequestRestart()
      requires Valid()
      modifies this
      ensures Valid() && trace == old(trace) + [Change]
      ensures Snapshot() == After(old(Snapshot()), Change)
    {
      chg := 2;
      OneMore(POWER_UP, trace, Change);
      trace := trace + [Change];
    }

    /** In the variables: with no request pending, the count is the number of frames since the window began, all within W of it. */
    lemma CountIsTrue()
      requires Valid() && chg == 0 && Paced(trace)
      ensures var p := LastStart(trace);
              && p >= 0 && cnt == (|trace| - 1 - p) % WRAP32
              && forall k :: p < k < |trace| ==> trace[k].Frame? && 0 <= trace[k].cycle - trace[p].cycle <= WINDOW
    {
      WindowFacts(trace);
    }
  }

  lemma OneMore(c: Counter, trace: seq<Event>, e: Event)
    requires c.preTime < WRAP64
    ensures AfterAll(c, trace + [e]) == After(AfterAll(c, trace), e)
  {
    assert (trace + [e])[..|trace|] == trace;
  }

  lemma {:induction false} Append(c: Counter, xs: seq<Event>, ys: seq<Event>)
    requires c.preTime < WRAP64
    ensures AfterAll(c, xs + ys) == AfterAll(AfterAll(c, xs), ys)
  {
    if ys == [] {
      assert xs + ys == xs;
    } else {
      var n := |ys| - 1;
      assert xs + ys == (xs + ys[..n]) + [ys[n]];
      Append(c, xs, ys[..n]);
      OneMore(c, xs + ys[..n], ys[n]);
    }
  }

  // ---------------------------------------------------------------- the elapsed expression

  /** The expression is the true difference modulo 2^64, so exact for gaps below 2^64. */
  lemma ElapsedIsDifference(t0: nat, t1: nat)
    requires t0 <= t1
    ensures Elapsed(t0 % WRAP64, t1 % WRAP64) == (t1 - t0) % WRAP64
  {
  }

  // ---------------------------------------------------------------- traces

  /** Position in the trace of the last window start, or -1. */
  function LastStart(trace: seq<Event>): (p: int)
    ensures -1 <= p < |trace|
    ensures p >= 0 ==> trace[p].Frame?
  {
    if trace == [] then -1
    else
      var before, e := trace[..|trace| - 1], trace[|trace| - 1];
      if e.Frame? && Restarts(AfterAll(POWER_UP, before), e.cycle) then |before| else LastStart(before)
  }

  /** Frame interrupts at positions lo < k < hi. */
  function FramesBetween(trace: seq<Event>, lo: int, hi: int): nat
    requires -1 <= lo && hi <= |trace|
    decreases hi - lo
  {
    if hi - 1 <= lo then 0 else FramesBetween(trace, lo, hi - 1) + (if trace[hi - 1].Frame? then 1 else 0)
  }

  lemma {:induction false} FramesPrefix(trace: seq<Event>, n: nat, lo: int, hi: int)
    requires -1 <= lo && hi <= n <= |trace|
    ensures FramesBetween(trace[..n], lo, hi) == FramesBetween(trace, lo, hi)
    decreases hi - lo
  {
    if hi - 1 > lo { FramesPrefix(trace, n, lo, hi - 1); }
  }

  /** The count since the window began, and when it began. */
  ghost predicate Running(c: Counter, trace: seq<Event>, p: int)
    requires -1 <= p < |trace| && (p >= 0 ==> trace[p].Frame?)
  {
    && c.cnt == FramesBetween(trace, p, |trace|) % WRAP32
    && (p == -1 ==> c.chg != 0 && c.cnt == 0)
    && (p >= 0 ==> c.preTime == trace[p].cycle % WRAP64)
  }

  lemma RunningStep(c: Counter, trace: seq<Event>, p: int, e: Event)
    requires -1 <= p < |trace| && (p >= 0 ==> trace[p].Frame?)
    requires c.preTime < WRAP64 && Running(c, trace, p)
    ensures var p' := if e.Frame? && Restarts(c, e.cycle) then |trace| else p;
            Running(After(c, e), trace + [e], p')
  {
    FramesPrefix(trace + [e], |trace|, p, |trace|);
    assert (trace + [e])[..|trace|] == trace;
    ModAdd(FramesBetween(trace, p, |trace|), 1, WRAP32);
  }

  /** The running count is the number of frames since the window began, and `preTime` is when it began. */
  lemma {:induction false} CountsSinceStart(trace: seq<Event>)
    ensures Running(AfterAll(POWER_UP, trace), trace, LastStart(trace))
  {
    if trace != [] {
      var before, e := trace[..|trace| - 1], trace[|trace| - 1];
      CountsSinceStart(before);
      RunningStep(AfterAll(POWER_UP, before), before, LastStart(before), e);
      assert before + [e] == trace;
    }
  }

  /** Each published figure is the number of frames strictly between two consecutive window starts. */
  lemma PublishedCount(trace: seq<Event>, cycle: nat)
    ensures var c := AfterAll(POWER_UP, trace);
            var d := AfterAll(POWER_UP, trace + [Frame(cycle)]);
            if c.chg == 0 && Restarts(c, cycle)
            then LastStart(trace) >= 0 && LastStart(trace + [Frame(cycle)]) == |trace|
                 && d.fps == FramesBetween(trace + [Frame(cycle)], LastStart(trace), |trace|) % WRAP32
            else d.fps == c.fps
  {
    var all := trace + [Frame(cycle)];
    assert all[..|trace|] == trace;
    CountsSinceStart(trace);
    FramesPrefix(all, |trace|, LastStart(trace), |trace|);
  }

  // ---------------------------------------------------------------- true time

  /** Cycle counts do not decrease, and no frame comes 2^64 cycles or more after the start of its window. */
  ghost predicate Paced(trace: seq<Event>) {
    trace == [] ||
    var before, e := trace[..|trace| - 1], trace[|trace| - 1];
    Paced(before) && (e.Frame? ==> InTime(before, LastStart(before), e.cycle))
  }

  /** A frame at `cycle` may follow a trace whose window began at p. */
  ghost predicate InTime(trace: seq<Event>, p: int, cycle: nat)
    requires -1 <= p < |trace| && (p >= 0 ==> trace[p].Frame?)
  {
    && (forall i :: 0 <= i < |trace| && trace[i].Frame? ==> trace[i].cycle <= cycle)
    && (p >= 0 ==> cycle < trace[p].cycle + WRAP64)
  }

  lemma PacedPrefix(trace: seq<Event>, e: Event)
    requires Paced(trace + [e])
    ensures Paced(trace)
    ensures e.Frame? && LastStart(trace) >= 0 ==>
              trace[LastStart(trace)].cycle <= e.cycle < trace[LastStart(trace)].cycle + WRAP64
  {
    assert (trace + [e])[..|trace|] == trace;
  }

  lemma RestartIff(c: Counter, t0: nat, t1: nat)
    requires c.chg == 0 && c.preTime == t0 % WRAP64 && t0 <= t1 < t0 + WRAP64
    ensures Restarts(c, t1) <==> t1 - t0 > WINDOW
  {
  }

  /** With no request pending, everything since the window's start is a frame within W of it. */
  ghost predicate Timed(c: Counter, trace: seq<Event>, p: int)
    requires -1 <= p < |trace| && (p >= 0 ==> trace[p].Frame?)
  {
    p >= 0 && c.chg == 0 ==>
      forall k :: p < k < |trace| ==> trace[k].Frame? && 0 <= trace[k].cycle - trace[p].cycle <= WINDOW
  }

  lemma TimedStep(c: Counter, trace: seq<Event>, p: int, e: Event)
    requires -1 <= p < |trace| && (p >= 0 ==> trace[p].Frame?)
    requires c.preTime < WRAP64 && Running(c, trace, p) && Timed(c, trace, p)
    requires e.Frame? && p >= 0 ==> trace[p].cycle <= e.cycle < trace[p].cycle + WRAP64
    ensures var p' := if e.Frame? && Restarts(c, e.cycle) then |trace| else p;
            Timed(After(c, e), trace + [e], p')
  {
    if e.Frame? && p >= 0 && c.chg == 0 { RestartIff(c, trace[p].cycle, e.cycle); }
  }

  lemma {:induction false} WindowHolds(trace: seq<Event>)
    requires Paced(trace)
    ensures Timed(AfterAll(POWER_UP, trace), trace, LastStart(trace))
  {
    if trace != [] {
      var before, e := trace[..|trace| - 1], trace[|trace| - 1];
      assert before + [e] == trace;
      PacedPrefix(before, e);
      WindowHolds(before);
      CountsSinceStart(before);
      TimedStep(AfterAll(POWER_UP, before), before, LastStart(before), e);
    }
  }

  lemma {:induction false} AllFrames(trace: seq<Event>, lo: int, hi: int)
    requires -1 <= lo < hi <= |trace| && forall k :: lo < k < hi ==> trace[k].Frame?
    ensures FramesBetween(trace, lo, hi) == hi - 1 - lo
    decreases hi - lo
  {
    if hi - 1 > lo { AllFrames(trace, lo, hi - 1); }
  }

  /** In a window that began at p: what the variables hold, and where its frames lie. */
  ghost predicate Facts(c: Counter, trace: seq<Event>, p: int) {
    && 0 <= p < |trace| && trace[p].Frame? && c.preTime == trace[p].cycle % WRAP64 && c.cnt == (|trace| - 1 - p) % WRAP32
    && forall k :: p < k < |trace| ==> trace[k].Frame? && 0 <= trace[k].cycle - trace[p].cycle <= WINDOW
  }

  lemma FactsOf(c: Counter, trace: seq<Event>, p: int)
    requires -1 <= p < |trace| && (p >= 0 ==> trace[p].Frame?)
    requires c.chg == 0 && Running(c, trace, p) && Timed(c, trace, p)
    ensures Facts(c, trace, p)
  {
    AllFrames(trace, p, |trace|);
  }

  lemma WindowFacts(trace: seq<Event>)
    requires Paced(trace) && AfterAll(POWER_UP, trace).chg == 0
    ensures Facts(AfterAll(POWER_UP, trace), trace, LastStart(trace))
  {
    CountsSinceStart(trace);
    WindowHolds(trace);
    FactsOf(AfterAll(POWER_UP, trace), trace, LastStart(trace));
  }

  lemma EndOfWindow(c: Counter, trace: seq<Event>, p: int, cycle: nat)
    requires c.chg == 0 && Facts(c, trace, p) && trace[p].cycle <= cycle < trace[p].cycle + WRAP64
    ensures c.preTime < WRAP64 && (Restarts(c, cycle) <==> cycle - trace[p].cycle > WINDOW)
    ensures Restarts(c, cycle) ==> After(c, Frame(cycle)).fps == (|trace| - 1 - p) % WRAP32
  {
    RestartIff(c, trace[p].cycle, cycle);
  }

  /**
   * In true time, for a window that began at p, a frame at `cycle`, and the counters c and d before and after it: the
   * frame ends the window iff it comes more than W after its start, and the figure it publishes is the number of frames
   * since that start, all of them within W of it.
   */
  ghost predicate TrueTime(c: Counter, d: Counter, trace: seq<Event>, p: int, cycle: nat)
    requires c.preTime < WRAP64
  {
    && 0 <= p < |trace| && trace[p].Frame?
    && (Restarts(c, cycle) <==> cycle - trace[p].cycle > WINDOW)
    && (forall k :: p < k < |trace| ==> trace[k].Frame? && 0 <= trace[k].cycle - trace[p].cycle <= WINDOW)
    && (Restarts(c, cycle) ==> d.fps == (|trace| - 1 - p) % WRAP32)
  }

  lemma TrueTimeOf(c: Counter, trace: seq<Event>, p: int, cycle: nat)
    requires c.chg == 0 && Facts(c, trace, p) && trace[p].cycle <= cycle < trace[p].cycle + WRAP64
    ensures c.preTime < WRAP64 && TrueTime(c, After(c, Frame(cycle)), trace, p, cycle)
  {
    EndOfWindow(c, trace, p, cycle);
  }

  /** Every published figure is a count in true time. */
  lemma PublishedInTrueTime(trace: seq<Event>, cycle: nat)
    requires Paced(trace + [Frame(cycle)]) && AfterAll(POWER_UP, trace).chg == 0
    ensures TrueTime(AfterAll(POWER_UP, trace), AfterAll(POWER_UP, trace + [Frame(cycle)]), trace, LastStart(trace), cycle)
  {
    PacedPrefix(trace, Frame(cycle));
    WindowFacts(trace);
    TrueTimeOf(AfterAll(POWER_UP, trace), trace, LastStart(trace), cycle);
    OneMore(POWER_UP, trace, Frame(cycle));
  }

  // ---------------------------------------------------------------- a constant frame period

  /** n frames, one every `period` cycles. */
  function Periodic(start: nat, period: nat, n: nat): (trace: seq<Event>)
    ensures |trace| == n
  {
    if n == 0 then [] else Periodic(start, period, n - 1) + [Frame(start + (n - 1) * period)]
  }

  /** q periods fit in the window and q+1 do not. */
  predicate Fits(period: nat, q: nat) {
    0 < period < WRAP64 && q * period <= WINDOW < (q + 1) * period < WRAP64
  }

  lemma FloorFits(period: nat, q: nat)
    requires 0 < period < WRAP64 && q == WINDOW / period
    ensures Fits(period, q) && q <= WINDOW
  {
    DivBounds(WINDOW, period);
    assert (q + 1) * period == q * period + period;
    DivGe(WINDOW, period, 1);
  }

  /** Where the n-th frame stands in its window of q+1 frames. */
  function Phase(q: nat, n: nat): (j: nat)
    ensures j <= q && j <= n && (n <= q ==> j == n)
  {
    if n == 0 then 0 else if Phase(q, n - 1) == q then 0 else Phase(q, n - 1) + 1
  }

  /** The counter n frames after a window start: windows of q+1 frames, each publishing q; before that, the old figure. */
  ghost predicate Steady(c: Counter, fps0: nat, start: nat, period: nat, q: nat, n: nat) {
    && c.chg == 0
    && c.cnt == Phase(q, n)
    && c.preTime == (start + (n - Phase(q, n)) * period) % WRAP64
    && c.fps == if n > q then q else fps0
  }

  lemma SteadyRestart(c: Counter, fps0: nat, start: nat, period: nat, q: nat, n: nat)
    requires Fits(period, q) && c.preTime < WRAP64 && Steady(c, fps0, start, period, q, n)
    ensures Restarts(c, start + (n + 1) * period) <==> c.cnt == q
  {
    var j := Phase(q, n);
    var t0, t1 := start + (n - j) * period, start + (n + 1) * period;
    assert (n - j) * period + (j + 1) * period == (n + 1) * period;
    MulLe(j + 1, q, period);
    MulLe(j + 1, q + 1, period);
    RestartIff(c, t0, t1);
  }

  /** One more frame, with the new counter spelled out. */
  lemma SteadyNext(c: Counter, d: Counter, fps0: nat, start: nat, period: nat, q: nat, n: nat)
    requires Steady(c, fps0, start, period, q, n)
    requires d == if c.cnt == q then Counter((start + (n + 1) * period) % WRAP64, 0, 0, c.cnt) else c.(cnt := c.cnt + 1)
    ensures Steady(d, fps0, start, period, q, n + 1)
  {
  }

  lemma AfterFrame(c: Counter, cycle: nat, last: bool)
    requires c.chg == 0 && c.preTime < WRAP64 && c.cnt < WRAP32 - 1
    requires Restarts(c, cycle) <==> last
    ensures After(c, Frame(cycle)) == if last then Counter(cycle % WRAP64, 0, 0, c.cnt) else c.(cnt := c.cnt + 1)
  {
  }

  lemma SteadyStep(c: Counter, fps0: nat, start: nat, period: nat, q: nat, n: nat, cycle: nat)
    requires Fits(period, q) && q < WRAP32 - 1 && c.preTime < WRAP64 && Steady(c, fps0, start, period, q, n)
    requires cycle == start + (n + 1) * period
    ensures Steady(After(c, Frame(cycle)), fps0, start, period, q, n + 1)
  {
    SteadyRestart(c, fps0, start, period, q, n);
    AfterFrame(c, cycle, c.cnt == q);
    SteadyNext(c, After(c, Frame(cycle)), fps0, start, period, q, n);
  }

  lemma PeriodicPush(c: Counter, start: nat, period: nat, n: nat)
    requires c.preTime < WRAP64
    ensures AfterAll(c, Periodic(start, period, n + 1)) == After(AfterAll(c, Periodic(start, period, n)), Frame(start + n * period))
  {
    OneMore(c, Periodic(start, period, n), Frame(start + n * period));
  }

  /** A frame at `start` begins a window with at most one request left. */
  predicate Begins(c: Counter, start: nat)
    requires c.preTime < WRAP64
  {
    c.chg <= 1 && Restarts(c, start)
  }

  lemma SteadyStart(c: Counter, start: nat, period: nat, q: nat)
    requires c.preTime < WRAP64 && Begins(c, start)
    ensures Steady(AfterAll(c, Periodic(start, period, 1)), After(c, Frame(start)).fps, start, period, q, 0)
  {
    PeriodicPush(c, start, period, 0);
    assert Periodic(start, period, 0) == [] && start + 0 * period == start;
    assert (0 - Phase(q, 0)) * period == 0;
  }

  lemma PeriodicNext(c: Counter, fps0: nat, start: nat, period: nat, q: nat, n: nat)
    requires c.preTime < WRAP64 && Fits(period, q) && q < WRAP32 - 1
    requires Steady(AfterAll(c, Periodic(start, period, n + 1)), fps0, start, period, q, n)
    ensures Steady(AfterAll(c, Periodic(start, period, n + 2)), fps0, start, period, q, n + 1)
  {
    PeriodicPush(c, start, period, n + 1);
    SteadyStep(AfterAll(c, Periodic(start, period, n + 1)), fps0, start, period, q, n, start + (n + 1) * period);
  }

  /** From any window start on, a constant period gives the whole counter after every frame. */
  lemma {:induction false} PeriodicRun(c: Counter, start: nat, period: nat, q: nat, n: nat)
    requires c.preTime < WRAP64 && Begins(c, start) && Fits(period, q) && q < WRAP32 - 1
    ensures Steady(AfterAll(c, Periodic(start, period, n + 1)), After(c, Frame(start)).fps, start, period, q, n)
  {
    if n == 0 {
      SteadyStart(c, start, period, q);
    } else {
      PeriodicRun(c, start, period, q, n - 1);
      PeriodicNext(c, After(c, Frame(start)).fps, start, period, q, n - 1);
    }
  }

  lemma PeriodicFigure(c: Counter, start: nat, period: nat, q: nat, n: nat)
    requires c.preTime < WRAP64 && Begins(c, start) && Fits(period, q) && q < WRAP32 - 1
    ensures AfterAll(c, Periodic(start, period, n + 1)).fps == if n > q then q else After(c, Frame(start)).fps
  {
    PeriodicRun(c, start, period, q, n);
  }

  /**
   * After any events, from any frame that begins a window on with a constant period T: the old figure stays for the
   * first floor(W / T) frames, and from then on the figure is floor(W / T).
   */
  lemma ConstantPeriod(before: seq<Event>, start: nat, period: nat, n: nat)
    requires 0 < period < WRAP64 && Begins(AfterAll(POWER_UP, before), start)
    ensures var q := WINDOW / period;
            AfterAll(POWER_UP, before + Periodic(start, period, n + 1)).fps
            == if n > q then q else AfterAll(POWER_UP, before + [Frame(start)]).fps
  {
    var c, q := AfterAll(POWER_UP, before), WINDOW / period;
    FloorFits(period, q);
    PeriodicFigure(c, start, period, q, n);
    Append(POWER_UP, before, Periodic(start, period, n + 1));
    OneMore(POWER_UP, before, Frame(start));
  }

  lemma Shifted(start: nat, period: nat, n: nat)
    requires n > 0
    ensures start + n * period == start + period + (n - 1) * period
  {
    assert n * period == (n - 1) * period + period;
  }

  lemma {:induction false} PeriodicTail(start: nat, period: nat, n: nat)
    ensures Periodic(start, period, n + 1) == [Frame(start)] + Periodic(start + period, period, n)
  {
    if n > 0 {
      PeriodicTail(start, period, n - 1);
      Shifted(start, period, n);
    }
  }

  lemma RequestServed(c: Counter, first: nat, second: nat)
    requires c.preTime < WRAP64 && c.chg == 2
    ensures var d := After(c, Frame(first));
            Begins(d, second) && After(d, Frame(second)).fps == c.fps
  {
  }

  lemma PeriodicAfterFirst(c: Counter, start: nat, period: nat, n: nat)
    requires c.preTime < WRAP64
    ensures AfterAll(c, Periodic(start, period, n + 1)) == AfterAll(After(c, Frame(start)), Periodic(start + period, period, n))
  {
    PeriodicTail(start, period, n);
    Append(c, [Frame(start)], Periodic(start + period, period, n));
    OneMore(c, [], Frame(start));
    assert [] + [Frame(start)] == [Frame(start)];
  }

  lemma PeriodicAfterRequest(c: Counter, start: nat, period: nat, q: nat, n: nat)
    requires c.preTime < WRAP64 && c.chg == 2 && Fits(period, q) && q < WRAP32 - 1
    ensures AfterAll(c, Periodic(start, period, n + 2)).fps == if n > q then q else c.fps
  {
    RequestServed(c, start, start + period);
    var d, next := After(c, Frame(start)), start + period;
    assert AfterAll(c, Periodic(start, period, n + 2)) == AfterAll(d, Periodic(next, period, n + 1)) by {
      PeriodicAfterFirst(c, start, period, n + 1);
    }
    PeriodicFigure(d, next, period, q, n);
  }

  /** The same after power-up or a request at any time: the first two frames serve the request, the rest count. */
  lemma ConstantPeriodAfterRequest(before: seq<Event>, start: nat, period: nat, n: nat)
    requires 0 < period < WRAP64 && AfterAll(POWER_UP, before).chg == 2
    ensures var q := WINDOW / period;
            AfterAll(POWER_UP, before + Periodic(start, period, n + 2)).fps
            == if n > q then q else AfterAll(POWER_UP, before).fps
  {
    var q := WINDOW / period;
    FloorFits(period, q);
    Append(POWER_UP, before, Periodic(start, period, n + 2));
    PeriodicAfterRequest(AfterAll(POWER_UP, before), start, period, q, n);
  }

  /** After a restart request at any moment, the counter asks for two window starts. */
  lemma RequestAsksForTwo(before: seq<Event>)
    ensures AfterAll(POWER_UP, before + [Change]) == AfterAll(POWER_UP, before).(chg := 2)
  {
    OneMore(POWER_UP, before, Change);
  }

  /** So from a request on, with a constant period T, the old figure stays for floor(W / T) + 2 frames, then it is floor(W / T). */
  lemma ConstantPeriodAfterChange(before: seq<Event>, start: nat, period: nat, n: nat)
    requires 0 < period < WRAP64
    ensures var q := WINDOW / period;
            AfterAll(POWER_UP, before + [Change] + Periodic(start, period, n + 2)).fps
            == if n > q then q else AfterAll(POWER_UP, before).fps
  {
    RequestAsksForTwo(before);
    ConstantPeriodAfterRequest(before + [Change], start, period, n);
  }

  /** And so from power-up, where the figure is 0. */
  lemma ConstantPeriodAfterPowerUp(start: nat, period: nat, n: nat)
    requires 0 < period < WRAP64
    ensures var q := WINDOW / period;
            AfterAll(POWER_UP, Periodic(start, period, n + 2)).fps == if n > q then q else 0
  {
    ConstantPeriodAfterRequest([], start, period, n);
    assert [] + Periodic(start, period, n + 2) == Periodic(start, period, n + 2);
  }

  /** W is 4.008 seconds of CPU cycles. */
  lemma WindowLength()
    ensures WINDOW * 1000 == 4008 * 74250000
  {
  }
}
