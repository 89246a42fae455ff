/**
 * The enable, priority and threshold words of Source/dev/irq.c.  The firmware keeps no shadow copy:
 * the words are updated in place, enables per hart, priorities for all harts at once.
 */
module IrqEnable {
  import opened Words

  const HARTS: nat := 4
  const SOURCES: nat := 40

  // ---------------------------------------------------------------- the words as values

  datatype Table = Table(enables: seq<Word>, prio: seq<nat>, threshold: seq<nat>) {
    predicate Valid() { |enables| == 16 && |prio| == SOURCES + 1 && |threshold| == 8 }

    /** The enable bit of source s for hart h in mode m (0: machine, 1: supervisor). */
    predicate Enabled(h: nat, m: nat, s: nat)
      requires Valid() && h < HARTS && m < 2 && s <= SOURCES
    {
      s % 32 in enables[4 * h + 2 * m + s / 32]
    }

    /** The controller interrupts hart h in mode m for a pending source s. */
    predicate Deliverable(h: nat, m: nat, s: nat)
      requires Valid() && h < HARTS && m < 2 && s <= SOURCES
    {
      Enabled(h, m, s) && prio[s] > threshold[2 * h + m]
    }
  }

  /** A call of the firmware's interface, made on hart `h` (the hart's own id is read, not passed). */
  datatype Call =
    | Set(h: nat, s: nat, on: bool, mode: nat)
    | DisableOwn(h: nat)
    | DisableAll

  predicate Sensible(c: Call) {
    (c.Set? ==> c.h < HARTS && 1 <= c.s <= SOURCES) && (c.DisableOwn? ==> c.h < HARTS)
  }

  /** What a call leaves behind; a mode above 1 is reported and changes nothing. */
  function After(t: Table, c: Call): (r: Table)
    requires t.Valid() && Sensible(c)
    ensures r.Valid()
  {
    match c
    case Set(h, s, on, m) =>
      if m > 1 then t
      else
        var w := 4 * h + 2 * m + s / 32;
        var bits := if on then t.enables[w] + {s % 32} else t.enables[w] - {s % 32};
        t.(prio := t.prio[s := if on then 1 else 0], enables := t.enables[w := bits],
           threshold := if 4 * h + m < 8 then t.threshold[4 * h + m := 0] else t.threshold)
    case DisableOwn(h) =>
      t.(enables := seq(16, i requires 0 <= i < 16 => if 4 * h <= i < 4 * h + 4 then {} else t.enables[i]))
    case DisableAll =>
      t.(enables := seq(16, _ => {}))
  }

  function AfterAll(t: Table, calls: seq<Call>): (r: Table)
    requires t.Valid() && forall c :: c in calls ==> Sensible(c)
    ensures r.Valid()
  {
    if calls == [] then t else After(AfterAll(t, calls[..|calls| - 1]), calls[|calls| - 1])
  }

  // ---------------------------------------------------------------- the table refines a map

  /** What the calls say about one enable bit: the last relevant one wins. */
  function LastEnable(calls: seq<Call>, start: bool, h: nat, m: nat, s: nat): bool {
    if calls == [] then start
    else
      var c := calls[|calls| - 1];
      if c == Set(h, s, true, m) then true
      else if c == Set(h, s, false, m) || c == DisableOwn(h) || c.DisableAll? then false
      else LastEnable(calls[..|calls| - 1], start, h, m, s)
  }

  /** What the calls say about one priority, whichever hart made them. */
  function LastPriority(calls: seq<Call>, start: nat, s: nat): nat {
    if calls == [] then start
    else
      var c := calls[|calls| - 1];
      if c.Set? && c.mode <= 1 && c.s == s then (if c.on then 1 else 0)
      else LastPriority(calls[..|calls| - 1], start, s)
  }

  /** Two (hart, mode, source) triples never share a bit of the table. */
  lemma IndexIsInjective(h: nat, m: nat, s: nat, h': nat, m': nat, s': nat)
    requires h < HARTS && h' < HARTS && m < 2 && m' < 2 && s <= SOURCES && s' <= SOURCES
    requires 4 * h + 2 * m + s / 32 == 4 * h' + 2 * m' + s' / 32 && s % 32 == s' % 32
    ensures h == h' && m == m' && s == s'
  {
  }

  /** One call changes one bit, or clears one hart, or clears all. */
  lemma OneBit(t: Table, c: Call, h: nat, m: nat, s: nat)
    requires t.Valid() && Sensible(c) && h < HARTS && m < 2 && s <= SOURCES
    ensures After(t, c).Enabled(h, m, s) ==
            if c == Set(h, s, true, m) then true
            else if c == Set(h, s, false, m) || c == DisableOwn(h) || c.DisableAll? then false
            else t.Enabled(h, m, s)
  {
  }

  lemma {:induction false} EnableIsLastWrite(t: Table, calls: seq<Call>, h: nat, m: nat, s: nat)
    requires t.Valid() && (forall c :: c in calls ==> Sensible(c)) && h < HARTS && m < 2 && s <= SOURCES
    ensures AfterAll(t, calls).Enabled(h, m, s) == LastEnable(calls, t.Enabled(h, m, s), h, m, s)
  {
    if calls != [] {
      var before := calls[..|calls| - 1];
      EnableIsLastWrite(t, before, h, m, s);
      OneBit(AfterAll(t, before), calls[|calls| - 1], h, m, s);
    }
  }

  lemma {:induction false} PriorityIsLastCall(t: Table, calls: seq<Call>, s: nat)
    requires t.Valid() && (forall c :: c in calls ==> Sensible(c)) && s <= SOURCES
    ensures AfterAll(t, calls).prio[s] == LastPriority(calls, t.prio[s], s)
  {
    if calls != [] {
      PriorityIsLastCall(t, calls[..|calls| - 1], s);
    }
  }

  lemma {:induction false} ThresholdsStayZero(t: Table, calls: seq<Call>)
    requires t.Valid() && (forall c :: c in calls ==> Sensible(c))
    requires forall k :: 0 <= k < 8 ==> t.threshold[k] == 0
    ensures forall k :: 0 <= k < 8 ==> AfterAll(t, calls).threshold[k] == 0
  {
    if calls != [] {
      ThresholdsStayZero(t, calls[..|calls| - 1]);
    }
  }

  /** With thresholds at 0, a source reaches a context iff its own last write and the last call on any hart were "on". */
  lemma DeliverableIff(t: Table, calls: seq<Call>, h: nat, m: nat, s: nat)
    requires t.Valid() && (forall c :: c in calls ==> Sensible(c)) && h < HARTS && m < 2 && 1 <= s <= SOURCES
    requires forall k :: 0 <= k < 8 ==> t.threshold[k] == 0
    ensures AfterAll(t, calls).Deliverable(h, m, s) <==>
            LastEnable(calls, t.Enabled(h, m, s), h, m, s) && LastPriority(calls, t.prio[s], s) > 0
  {
    EnableIsLastWrite(t, calls, h, m, s);
    PriorityIsLastCall(t, calls, s);
    ThresholdsStayZero(t, calls);
  }

  /** An "off" on one hart silences the source on every hart, without touching the other harts' enable bits. */
  lemma OffSilencesEverywhere(t: Table, g: nat, n: nat, h: nat, m: nat, s: nat)
    requires t.Valid() && g < HARTS && n < 2 && h < HARTS && m < 2 && 1 <= s <= SOURCES
    ensures var r := After(t, Set(g, s, false, n));
            !r.Deliverable(h, m, s) && ((h, m) != (g, n) ==> r.Enabled(h, m, s) == t.Enabled(h, m, s))
  {
  }

  /** The threshold store clears the caller's own threshold on hart 0 and on no other hart. */
  lemma ThresholdOnlyRightOnHart0(h: nat, s: nat, on: bool, m: nat)
    requires h < HARTS && 1 <= s <= SOURCES && m < 2
    ensures (forall t: Table :: t.Valid() ==> After(t, Set(h, s, on, m)).threshold[2 * h + m] == 0) <==> h == 0
  {
    if h != 0 {
      var t := Table(seq(16, _ => {}), seq(SOURCES + 1, _ => 0), seq(8, _ => 1));
      assert t.Valid();
      var r := After(t, Set(h, s, on, m));
      assert 4 * h + m != 2 * h + m;
      assert r.threshold[2 * h + m] == 1;
    }
  }

  // ---------------------------------------------------------------- the words in place

  function PowerUp(): (t: Table)
    ensures t.Valid()
  {
    Table(seq(16, _ => {}), seq(SOURCES + 1, _ => 0), seq(8, _ => 0))
  }

  /** r is t with one enable bit, one priority and one threshold stored, word by word. */
  ghost predicate Stored(t: Table, r: Table, h: nat, s: nat, on: bool, m: nat)
    requires t.Valid() && r.Valid()
  {
    && (forall w :: 0 <= w < 16 && (m > 1 || w != 4 * h + 2 * m + s / 32) ==> r.enables[w] == t.enables[w])
    && (forall w :: 0 <= w < 16 && m <= 1 && w == 4 * h + 2 * m + s / 32 ==>
          r.enables[w] == if on then t.enables[w] + {s % 32} else t.enables[w] - {s % 32})
    && (forall x :: 0 <= x <= 40 && (m > 1 || x != s) ==> r.prio[x] == t.prio[x])
    && (forall x :: 0 <= x <= 40 && m <= 1 && x == s ==> r.prio[x] == if on then 1 else 0)
    && (forall k :: 0 <= k < 8 && (m > 1 || k != 4 * h + m) ==> r.threshold[k] == t.threshold[k])
    && (forall k :: 0 <= k < 8 && m <= 1 && k == 4 * h + m ==> r.threshold[k] == 0)
  }

  /** Where a call stores. */
  lemma SetStores(t: Table, h: nat, s: nat, on: bool, m: nat)
    requires t.Valid() && h < HARTS && 1 <= s <= SOURCES
    ensures Stored(t, After(t, Set(h, s, on, m)), h, s, on, m)
  {
  }

  lemma OneMore(t: Table, calls: seq<Call>, c: Call)
    requires t.Valid() && Sensible(c) && forall d :: d in calls ==> Sensible(d)
    ensures AfterAll(t, calls + [c]) == After(AfterAll(t, calls), c)
  {
    assert (calls + [c])[..|calls|] == calls;
  }

  /** The table is what the calls make of the power-up state. */
  ghost predicate Made(calls: seq<Call>, t: Table) {
    (forall c :: c in calls ==> Sensible(c)) && t == AfterAll(PowerUp(), calls)
  }

  lemma MadeMore(calls: seq<Call>, t: Table, c: Call)
    requires Made(calls, t) && Sensible(c)
    ensures t.Valid() && Made(calls + [c], After(t, c))
  {
    OneMore(PowerUp(), calls, c);
  }

  class Controller {
    const enables: array<Word>
    const prio: array<nat>
    const threshold: array<nat>
    ghost var calls: seq<Call>

    ghost predicate Shape() {
      enables.Length == 16 && prio.Length == SOURCES + 1 && threshold.Length == 8 && prio != threshold
    }

    /** The words are what the calls so far make of the power-up state. */
    ghost predicate Valid()
      reads this, enables, prio, threshold
    {
      Shape() && Made(calls, Snapshot())
    }

    ghost function Snapshot(): (t: Table)
      reads enables, prio, threshold
      requires Shape()
      ensures t.Valid()
    {
      Table(enables[..], prio[..], threshold[..])
    }

    constructor ()
      ensures Valid() && fresh(enables) && fresh(prio) && fresh(threshold) && calls == []
    {
      enables := new Word[16](_ => {});
      prio := new nat[SOURCES + 1](_ => 0);
      threshold := new nat[8](_ => 0);
      calls := [];
    }

    /**
     * `enx_externalirq_perl` on hart `hart`.  `stray` tells that the threshold store left its
     * eight-entry table, which C leaves undefined; the model then stores nothing.
     */
    method SetSource(hart: nat, idx: nat, onoff: nat, mode: nat) returns (stray: bool)
      requires Valid() && hart < HARTS && 1 <= idx <= SOURCES
      modifies this, enables, prio, threshold
      ensures Valid() && calls == old(calls) + [Set(hart, idx, onoff != 0, mode)]
      ensures Snapshot() == After(old(Snapshot()), Set(hart, idx, onoff != 0, mode))
      ensures stray <==> mode <= 1 && hart > 1
      ensures Stored(old(Snapshot()), Snapshot(), hart, idx, onoff != 0, mode)
    {
      ghost var t := Snapshot();
      SetStores(t, hart, idx, onoff != 0, mode);
      MadeMore(calls, t, Set(hart, idx, onoff != 0, mode));
      stray := StoreSource(hart, idx, onoff, mode);
      calls := calls + [Set(hart, idx, onoff != 0, mode)];
    }

    /** The stores of that call. */
    method StoreSource(hart: nat, idx: nat, onoff: nat, mode: nat) returns (stray: bool)
      requires Shape() && hart < HARTS && 1 <= idx <= SOURCES
      modifies enables, prio, threshold
      ensures Snapshot() == After(old(Snapshot()), Set(hart, idx, onoff != 0, mode))
      ensures stray <==> mode <= 1 && hart > 1
    {
      stray := false;
      if mode > 1 {
        return;
      }
      prio[idx] := if onoff != 0 then 1 else 0;
      var cpuid := hart * 4;
      var enableidx := idx % 32;
      var enabletype := 2 * mode + idx / 32;
      if onoff != 0 {
        enables[cpuid + enabletype] := enables[cpuid + enabletype] + {enableidx};
      } else {
        enables[cpuid + enabletype] := enables[cpuid + enabletype] - {enableidx};
      }
      if cpuid + mode < threshold.Length {
        threshold[cpuid + mode] := 0;
      } else {
        stray := true;
      }
    }

    /** `enx_externalirq_is_enable`; unlike the setter it takes the hart as a parameter. */
    method IsEnabled(cpuid: nat, idx: nat, mode: nat) returns (bit: nat)
      requires Shape() && cpuid < HARTS && mode <= 1 && idx <= SOURCES
      ensures bit == (if Snapshot().Enabled(cpuid, mode, idx) then 1 else 0)
      ensures bit == if idx % 32 in enables[4 * cpuid + 2 * mode + idx / 32] then 1 else 0
    {
      var enabletype := 2 * mode + idx / 32;
      bit := if idx % 32 in enables[cpuid * 4 + enabletype] then 1 else 0;
    }

    /** `enx_externalirq_disable` on hart `hart`. */
    method DisableHart(hart: nat)
      requires Valid() && hart < HARTS
      modifies this, enables
      ensures Valid() && calls == old(calls) + [DisableOwn(hart)]
      ensures Snapshot() == After(old(Snapshot()), DisableOwn(hart))
      ensures forall w :: 0 <= w < 16 ==> enables[w] == if w / 4 == hart then {} else old(enables[w])
    {
      MadeMore(calls, Snapshot(), DisableOwn(hart));
      var cpuid := hart * 4;
      for i := 0 to 4
        modifies enables
        invariant forall k :: 0 <= k < 16 ==> enables[k] == if cpuid <= k < cpuid + i then {} else old(enables[k])
      {
        enables[i + cpuid] := {};
      }
      calls := calls + [DisableOwn(hart)];
    }

    /** `enx_externalirq_all_disable`. */
    method DisableEverything()
      requires Valid()
      modifies this, enables
      ensures Valid() && calls == old(calls) + [DisableAll]
      ensures Snapshot() == After(old(Snapshot()), DisableAll)
      ensures forall w :: 0 <= w < 16 ==> enables[w] == {}
    {
      MadeMore(calls, Snapshot(), DisableAll);
      for i := 0 to enables.Length
        modifies enables
        invariant forall k :: 0 <= k < 16 ==> enables[k] == if k < i then {} else old(enables[k])
      {
        enables[i] := {};
      }
      calls := calls + [DisableAll];
    }

    /** In the words: each enable bit is what its last relevant call made it, each priority what the last call on any hart made it. */
    lemma WordsAreLastCalls(h: nat, m: nat, s: nat)
      requires Valid() && h < HARTS && m < 2 && s <= SOURCES
      ensures Snapshot().Enabled(h, m, s) == LastEnable(calls, false, h, m, s) && prio[s] == LastPriority(calls, 0, s)
    {
      EnableIsLastWrite(PowerUp(), calls, h, m, s);
      PriorityIsLastCall(PowerUp(), calls, s);
      assert prio[s] == Snapshot().prio[s];
    }

    /** In the words: what the controller delivers after any calls since power-up. */
    lemma WhatIsDelivered(h: nat, m: nat, s: nat)
      requires Valid() && h < HARTS && m < 2 && 1 <= s <= SOURCES
      ensures Snapshot().Deliverable(h, m, s) <==> LastEnable(calls, false, h, m, s) && LastPriority(calls, 0, s) > 0
    {
      DeliverableIff(PowerUp(), calls, h, m, s);
    }
  }

  // ---------------------------------------------------------------- start-up of hart 3

  /** The calls of `enx_externalirq_init_cpu3`. */
  const INIT_CPU3: seq<Call> :=
    [DisableOwn(3), Set(3, 1, true, 0), Set(3, 2, true, 0), Set(3, 6, true, 0), Set(3, 34, false, 0), Set(3, 7, true, 0)]

  /** Calls made by other harts leave this hart's enable bits alone. */
  lemma {:induction false} OthersKeep(t: Table, calls: seq<Call>, more: seq<Call>, h: nat, m: nat, s: nat)
    requires t.Valid() && (forall c :: c in calls + more ==> Sensible(c)) && h < HARTS && m < 2 && s <= SOURCES
    requires forall c :: c in more ==> !c.DisableAll? && c.h != h
    ensures AfterAll(t, calls + more).Enabled(h, m, s) == AfterAll(t, calls).Enabled(h, m, s)
  {
    if more == [] {
      assert calls + more == calls;
    } else {
      var n := |more| - 1;
      assert calls + more == (calls + more[..n]) + [more[n]];
      assert more[n] in more;
      OthersKeep(t, calls, more[..n], h, m, s);
      OneBit(AfterAll(t, calls + more[..n]), more[n], h, m, s);
    }
  }

  /** When hart 3 starts last, source 34 (GPIO60-63, I2C7, UART7) is dead on every hart, even where it is enabled. */
  lemma Hart3SilencesSource34(t: Table, calls: seq<Call>, h: nat, m: nat)
    requires t.Valid() && (forall c :: c in calls ==> Sensible(c)) && h < 3 && m < 2
    ensures forall c :: c in calls + INIT_CPU3 ==> Sensible(c)
    ensures var r := AfterAll(t, calls + INIT_CPU3);
            !r.Deliverable(h, m, 34) && r.Enabled(h, m, 34) == AfterAll(t, calls).Enabled(h, m, 34)
  {
    var five := [DisableOwn(3), Set(3, 1, true, 0), Set(3, 2, true, 0), Set(3, 6, true, 0), Set(3, 34, false, 0)];
    assert INIT_CPU3 == five + [Set(3, 7, true, 0)];
    assert calls + INIT_CPU3 == (calls + five) + [Set(3, 7, true, 0)];
    OthersKeep(t, calls, INIT_CPU3, h, m, 34);
    PriorityIsLastCall(t, calls + INIT_CPU3, 34);
    assert (calls + INIT_CPU3)[..|calls| + 5] == calls + five;
  }

  /** After its start-up hart 3 has exactly sources 1, 2, 6 and 7 enabled, in machine mode. */
  lemma EnabledAfterInit(t: Table, calls: seq<Call>, s: nat, m: nat)
    requires t.Valid() && (forall c :: c in calls ==> Sensible(c)) && s <= SOURCES && m < 2
    ensures forall c :: c in calls + INIT_CPU3 ==> Sensible(c)
    ensures AfterAll(t, calls + INIT_CPU3).Enabled(3, m, s) <==> m == 0 && s in {1, 2, 6, 7}
  {
    var all := calls + INIT_CPU3;
    var n := |calls|;
    EnableIsLastWrite(t, all, 3, m, s);
    assert all[..n + 6] == all;
    InitTail(calls, t.Enabled(3, m, s), s, m);
  }

  lemma LastEnablePush(calls: seq<Call>, c: Call, start: bool, h: nat, m: nat, s: nat)
    ensures LastEnable(calls + [c], start, h, m, s) ==
            if c == Set(h, s, true, m) then true
            else if c == Set(h, s, false, m) || c == DisableOwn(h) || c.DisableAll? then false
            else LastEnable(calls, start, h, m, s)
  {
    assert (calls + [c])[..|calls|] == calls;
  }

  lemma InitTail(calls: seq<Call>, start: bool, s: nat, m: nat)
    ensures LastEnable(calls + INIT_CPU3, start, 3, m, s) <==> m == 0 && s in {1, 2, 6, 7}
  {
    var a1 := calls + [DisableOwn(3)];
    var a2 := a1 + [Set(3, 1, true, 0)];
    var a3 := a2 + [Set(3, 2, true, 0)];
    var a4 := a3 + [Set(3, 6, true, 0)];
    var a5 := a4 + [Set(3, 34, false, 0)];
    assert calls + INIT_CPU3 == a5 + [Set(3, 7, true, 0)];
    LastEnablePush(calls, DisableOwn(3), start, 3, m, s);
    LastEnablePush(a1, Set(3, 1, true, 0), start, 3, m, s);
    LastEnablePush(a2, Set(3, 2, true, 0), start, 3, m, s);
    LastEnablePush(a3, Set(3, 6, true, 0), start, 3, m, s);
    LastEnablePush(a4, Set(3, 34, false, 0), start, 3, m, s);
    LastEnablePush(a5, Set(3, 7, true, 0), start, 3, m, s);
  }
}
