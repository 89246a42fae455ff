/**
 * The external-interrupt trap of Source/dev/irq.c on four harts at once, against a platform-level
 * interrupt controller with one gateway per source, an atomic claim, and a completion that is
 * ignored when the source is not enabled for the completing context.
 */
module Plic {

  const HARTS: nat := 4
  const SOURCES: nat := 40
  const WRAP: nat := 0x1_0000_0000_0000_0000

  /** Where a hart stands in its trap: pass `i` of the loop serves context 2*hart + i (0: machine, 1: supervisor). */
  datatype Trap =
    | Outside
    | Claiming(i: nat)
    | Counting(i: nat, source: nat)
    | Calling(i: nat, source: nat)
    | Completing(i: nat, source: nat)

  datatype Event =
    | Claimed(c: nat, source: nat)
    | Called(hart: nat, source: nat)
    | Completed(c: nat, source: nat, accepted: bool)

  /** `closed` is the set of gateways that forward no further request. */
  datatype State = State(
    pending: set<nat>, closed: set<nat>, enabled: set<(nat, nat)>, prio: map<nat, nat>,
    traps: seq<Trap>, counts: map<(nat, nat), nat>, log: seq<Event>)

  datatype Action =
    | Raise(s: nat)                          // a device raises its line
    | Enter(h: nat)                          // hart h takes the machine external interrupt
    | Claim(h: nat, s: nat)                  // hart h reads the claim register and gets s
    | Step(h: nat)                           // hart h performs its next action after a claim
    | SetEnable(c: nat, s: nat, on: bool)    // any write of an enable bit
    | SetPriority(s: nat, p: nat)            // any write of a priority word

  function Init(): State {
    State({}, {}, {}, map[], seq(HARTS, _ => Outside), map[], [])
  }

  function Priority(st: State, s: nat): nat { if s in st.prio then st.prio[s] else 0 }

  /** `core_irq_count[h].exirq_count[s]`. */
  function Count(st: State, h: nat, s: nat): nat { if (h, s) in st.counts then st.counts[(h, s)] else 0 }

  predicate Deliverable(st: State, c: nat, s: nat) {
    s != 0 && s in st.pending && (c, s) in st.enabled && Priority(st, s) > 0
  }

  /** A claim returns the deliverable source of highest priority, lowest id first, or 0 if there is none. */
  predicate ClaimResult(st: State, c: nat, s: nat) {
    if s == 0 then forall t :: t in st.pending ==> !Deliverable(st, c, t)
    else Deliverable(st, c, s) &&
         forall t :: t in st.pending && Deliverable(st, c, t) ==>
           Priority(st, t) < Priority(st, s) || (Priority(st, t) == Priority(st, s) && s <= t)
  }

  /** The loop's next pass, or the end of the trap. */
  function Advance(i: nat): Trap { if i == 0 then Claiming(1) else Outside }

  function ClaimStep(st: State, h: nat, s: nat): State
    requires h < |st.traps| && st.traps[h].Claiming?
  {
    var i := st.traps[h].i;
    if s == 0 then st.(traps := st.traps[h := Advance(i)])
    else st.(pending := st.pending - {s},
             traps := st.traps[h := if s > SOURCES then Advance(i) else Counting(i, s)],
             log := st.log + [Claimed(2 * h + i, s)])
  }

  function HartStep(st: State, h: nat): State
    requires h < |st.traps|
  {
    match st.traps[h]
    case Counting(i, s) =>
      st.(counts := st.counts[(h, s) := (Count(st, h, s) + 1) % WRAP], traps := st.traps[h := Calling(i, s)])
    case Calling(i, s) =>
      st.(traps := st.traps[h := Completing(i, s)], log := st.log + [Called(h, s)])
    case Completing(i, s) =>
      var ok := (2 * h + i, s) in st.enabled;
      st.(closed := if ok then st.closed - {s} else st.closed,
          traps := st.traps[h := Advance(i)],
          log := st.log + [Completed(2 * h + i, s, ok)])
    case _ => st
  }

  /** A disabled action leaves the state alone. */
  function Next(st: State, a: Action): State {
    match a
    case Raise(s) => if s == 0 || s in st.closed then st else st.(pending := st.pending + {s}, closed := st.closed + {s})
    case Enter(h) => if h < |st.traps| && st.traps[h].Outside? then st.(traps := st.traps[h := Claiming(0)]) else st
    case Claim(h, s) =>
      if h < |st.traps| && st.traps[h].Claiming? && ClaimResult(st, 2 * h + st.traps[h].i, s) then ClaimStep(st, h, s) else st
    case Step(h) => if h < |st.traps| then HartStep(st, h) else st
    case SetEnable(c, s, on) => st.(enabled := if on then st.enabled + {(c, s)} else st.enabled - {(c, s)})
    case SetPriority(s, p) => st.(prio := st.prio[s := p])
  }

  function Run(st: State, sched: seq<Action>): State {
    if sched == [] then st else Next(Run(st, sched[..|sched| - 1]), sched[|sched| - 1])
  }

  // ---------------------------------------------------------------- reading the log

  /** The (context, source) pairs claimed and not yet released by an accepted completion. */
  function InService(log: seq<Event>): set<(nat, nat)> {
    if log == [] then {}
    else
      var before, e := InService(log[..|log| - 1]), log[|log| - 1];
      if e.Claimed? then before + {(e.c, e.source)}
      else if e.Completed? && e.accepted then before - {(e.c, e.source)}
      else before
  }

  /** The completions the controller ignored. */
  function Refused(log: seq<Event>): set<(nat, nat)> {
    if log == [] then {}
    else
      var e := log[|log| - 1];
      Refused(log[..|log| - 1]) + (if e.Completed? && !e.accepted then {(e.c, e.source)} else {})
  }

  /** How often hart h called the handler of s. */
  function Calls(log: seq<Event>, h: nat, s: nat): nat {
    if log == [] then 0
    else Calls(log[..|log| - 1], h, s) + (if log[|log| - 1] == Called(h, s) then 1 else 0)
  }

  /** The claims of ids above 40, which the trap skips without completing. */
  function Skipped(log: seq<Event>): set<(nat, nat)> {
    if log == [] then {}
    else
      var e := log[|log| - 1];
      Skipped(log[..|log| - 1]) + (if e.Claimed? && e.source > SOURCES then {(e.c, e.source)} else {})
  }

  // ---------------------------------------------------------------- what each hart must do next

  /** The obligation a hart is under, read off the log alone. */
  datatype Duty = Free | MustCall(c: nat, source: nat) | MustComplete(c: nat, source: nat) | Broken

  function DutyAfter(d: Duty, e: Event, h: nat): Duty {
    match e
    case Claimed(c, s) =>
      if c / 2 != h then d else if !d.Free? then Broken else if s > SOURCES then Free else MustCall(c, s)
    case Called(g, s) =>
      if g != h then d else if d.MustCall? && d.source == s then MustComplete(d.c, s) else Broken
    case Completed(c, s, _) =>
      if c / 2 != h then d else if d == MustComplete(c, s) then Free else Broken
  }

  function DutyOf(log: seq<Event>, h: nat): Duty {
    if log == [] then Free else DutyAfter(DutyOf(log[..|log| - 1], h), log[|log| - 1], h)
  }

  // ---------------------------------------------------------------- what a step does

  /** Hart c/2 is between its claim of s on context c and the matching completion. */
  predicate Serves(st: State, c: nat, s: nat) {
    c / 2 < |st.traps| &&
    match st.traps[c / 2]
    case Counting(i, t) => c % 2 == i && s == t
    case Calling(i, t) => c % 2 == i && s == t
    case Completing(i, t) => c % 2 == i && s == t
    case _ => false
  }

  ghost predicate Shape(st: State) {
    |st.traps| == HARTS && forall h :: 0 <= h < HARTS && !st.traps[h].Outside? ==> st.traps[h].i < 2
  }

  ghost predicate Silent(st: State, t: State) {
    && t.log == st.log
    && st.closed <= t.closed
    && (forall s :: s in t.pending ==> s in st.pending || (s in t.closed && s !in st.closed))
    && (forall c: nat, s: nat :: Serves(t, c, s) <==> Serves(st, c, s))
  }

  /** What a step that logs `e` does to the gateways and to what is being served. */
  ghost predicate Move(st: State, t: State, e: Event) {
    && t.log == st.log + [e]
    && (e.Claimed? ==>
        && 0 < e.source && (e.c, e.source) in st.enabled
        && e.source in st.pending && t.pending == st.pending - {e.source} && t.closed == st.closed
        && (forall s: nat :: !Serves(st, e.c, s))
        && (forall c: nat, s: nat :: Serves(t, c, s) <==> Serves(st, c, s) || (c == e.c && s == e.source && s <= SOURCES)))
    && (e.Called? ==>
        && t.pending == st.pending && t.closed == st.closed
        && (forall c: nat, s: nat :: Serves(t, c, s) <==> Serves(st, c, s)))
    && (e.Completed? ==>
        && Serves(st, e.c, e.source) && t.pending == st.pending
        && e.accepted == ((e.c, e.source) in st.enabled)
        && t.closed == (if e.accepted then st.closed - {e.source} else st.closed)
        && (forall c: nat, s: nat :: Serves(t, c, s) <==> Serves(st, c, s) && c != e.c))
  }

  /** A step of hart h changes nothing for the contexts of the other harts. */
  lemma OtherHarts(st: State, t: State, h: nat, x: Trap)
    requires h < |st.traps| && t.traps == st.traps[h := x]
    ensures forall c: nat, s: nat :: c / 2 != h ==> (Serves(t, c, s) <==> Serves(st, c, s))
  {
  }

  lemma ClaimMoves(st: State, h: nat, s: nat)
    requires Shape(st) && h < HARTS && st.traps[h].Claiming? && ClaimResult(st, 2 * h + st.traps[h].i, s)
    ensures var t := ClaimStep(st, h, s);
            Shape(t) && (if s == 0 then Silent(st, t) else Move(st, t, Claimed(2 * h + st.traps[h].i, s)))
  {
  }

  lemma HartMoves(st: State, h: nat)
    requires Shape(st) && h < HARTS
    ensures var t := HartStep(st, h);
            Shape(t) && (if t.log == st.log then Silent(st, t) else t.log != [] && Move(st, t, t.log[|t.log| - 1]))
  {
    var t := HartStep(st, h);
    OtherHarts(st, t, h, t.traps[h]);
    match st.traps[h]
    case Calling(i, s) =>
      assert forall d: nat, r: nat :: d / 2 == h ==> (Serves(t, d, r) <==> Serves(st, d, r));
      assert t.log[|t.log| - 1] == Called(h, s);
    case Completing(i, s) =>
      assert forall d: nat, r: nat :: d / 2 == h ==> (Serves(st, d, r) <==> d == 2 * h + i && r == s);
      assert forall d: nat, r: nat :: d / 2 == h ==> !Serves(t, d, r);
      assert t.log[|t.log| - 1] == Completed(2 * h + i, s, (2 * h + i, s) in st.enabled);
    case _ =>
      assert forall d: nat, r: nat :: d / 2 == h ==> (Serves(t, d, r) <==> Serves(st, d, r));
  }

  lemma StepMoves(st: State, a: Action)
    requires Shape(st)
    ensures var t := Next(st, a);
            Shape(t) && (if t.log == st.log then Silent(st, t) else t.log != [] && Move(st, t, t.log[|t.log| - 1]))
  {
    match a
    case Claim(h, s) =>
      if h < |st.traps| && st.traps[h].Claiming? && ClaimResult(st, 2 * h + st.traps[h].i, s) { ClaimMoves(st, h, s); }
    case Step(h) => if h < |st.traps| { HartMoves(st, h); }
    case Enter(h) => assert forall c: nat, s: nat :: Serves(Next(st, a), c, s) <==> Serves(st, c, s);
    case _ => assert Silent(st, Next(st, a));
  }

  // ---------------------------------------------------------------- invariants

  /** A source in service or skipped keeps its gateway closed, and on one context only. */
  ghost predicate OneContext(st: State) {
    && st.pending <= st.closed
    && (forall c, s :: (c, s) in InService(st.log) ==> s in st.closed && s !in st.pending)
    && (forall c, d, s :: (c, s) in InService(st.log) && (d, s) in InService(st.log) ==> c == d)
  }

  /** In service: being served, or its completion was refused, or its id was skipped. */
  ghost predicate Accounted(st: State) {
    && (forall c: nat, s: nat :: Serves(st, c, s) ==> 0 < s <= SOURCES && (c, s) !in Refused(st.log))
    && (forall c, s :: (c, s) in Refused(st.log) ==> s <= SOURCES)
    && (forall c, s :: (c, s) in Skipped(st.log) ==> s > SOURCES)
    && (forall c: nat, s: nat :: (c, s) in InService(st.log) <==>
          Serves(st, c, s) || (c, s) in Refused(st.log) || (c, s) in Skipped(st.log))
  }

  lemma LogStep(log: seq<Event>, e: Event)
    ensures InService(log + [e]) ==
            if e.Claimed? then InService(log) + {(e.c, e.source)}
            else if e.Completed? && e.accepted then InService(log) - {(e.c, e.source)}
            else InService(log)
    ensures Refused(log + [e]) == Refused(log) + (if e.Completed? && !e.accepted then {(e.c, e.source)} else {})
    ensures Skipped(log + [e]) == Skipped(log) + (if e.Claimed? && e.source > SOURCES then {(e.c, e.source)} else {})
  {
  }

  lemma ServiceSilent(st: State, t: State)
    requires Silent(st, t) && OneContext(st) && Accounted(st)
    ensures OneContext(t) && Accounted(t)
  {
  }

  lemma OneContextMove(st: State, t: State, e: Event)
    requires Move(st, t, e) && OneContext(st) && Accounted(st)
    ensures OneContext(t)
  {
  }

  lemma AccountedMove(st: State, t: State, e: Event)
    requires Move(st, t, e) && OneContext(st) && Accounted(st)
    ensures Accounted(t)
  {
  }

  lemma {:induction false} RunKeepsService(sched: seq<Action>)
    ensures var st := Run(Init(), sched); Shape(st) && OneContext(st) && Accounted(st)
  {
    if sched != [] {
      var before := sched[..|sched| - 1];
      RunKeepsService(before);
      var st, t := Run(Init(), before), Run(Init(), sched);
      StepMoves(st, sched[|sched| - 1]);
      if t.log == st.log {
        ServiceSilent(st, t);
      } else {
        OneContextMove(st, t, t.log[|t.log| - 1]);
        AccountedMove(st, t, t.log[|t.log| - 1]);
      }
    }
  }

  // ---------------------------------------------------------------- theorems over whole runs

  /** No source is ever in service on two contexts, whatever the harts and the enable writes do. */
  lemma ServedOnOneContext(sched: seq<Action>, c: nat, d: nat, s: nat)
    requires (c, s) in InService(Run(Init(), sched).log) && (d, s) in InService(Run(Init(), sched).log)
    ensures c == d && s !in Run(Init(), sched).pending
  {
    RunKeepsService(sched);
  }

  /** A source 1..40 outlives the trap that claimed it exactly when its completion was refused. */
  lemma LeftInServiceIffRefused(sched: seq<Action>, c: nat, s: nat)
    requires 0 < s <= SOURCES && !Serves(Run(Init(), sched), c, s)
    ensures var log := Run(Init(), sched).log; (c, s) in InService(log) <==> (c, s) in Refused(log)
  {
    RunKeepsService(sched);
  }

  lemma {:induction false} RefusedGrows(st: State, more: seq<Action>)
    requires Shape(st)
    ensures Shape(Run(st, more)) && Refused(st.log) <= Refused(Run(st, more).log)
  {
    if more != [] {
      var before := more[..|more| - 1];
      RefusedGrows(st, before);
      var t, u := Run(st, before), Run(st, more);
      StepMoves(t, more[|more| - 1]);
      if u.log != t.log { LogStep(t.log, u.log[|u.log| - 1]); }
    }
  }

  lemma {:induction false} RunAppend(st: State, xs: seq<Action>, ys: seq<Action>)
    ensures Run(st, xs + ys) == Run(Run(st, xs), ys)
  {
    if ys == [] {
      assert xs + [] == xs;
    } else {
      RunAppend(st, xs, ys[..|ys| - 1]);
      assert (xs + ys)[..|xs + ys| - 1] == xs + ys[..|ys| - 1];
    }
  }

  /** A refused completion silences its source for good: no run continues with another claim of it. */
  lemma RefusedForever(sched: seq<Action>, more: seq<Action>, c: nat, s: nat)
    requires (c, s) in Refused(Run(Init(), sched).log)
    ensures var st := Run(Init(), sched + more); (c, s) in InService(st.log) && s !in st.pending
  {
    RunKeepsService(sched);
    RefusedGrows(Run(Init(), sched), more);
    RunAppend(Init(), sched, more);
    RunKeepsService(sched + more);
  }

  // ---------------------------------------------------------------- when a completion is accepted

  /** Whether the last write of the enable bit of (c, s) set it; it is clear at reset. */
  predicate LastSetOn(sched: seq<Action>, c: nat, s: nat) {
    sched != [] &&
    var a := sched[|sched| - 1];
    if a.SetEnable? && a.c == c && a.s == s then a.on else LastSetOn(sched[..|sched| - 1], c, s)
  }

  lemma {:induction false} EnabledIsLast(sched: seq<Action>, c: nat, s: nat)
    ensures (c, s) in Run(Init(), sched).enabled <==> LastSetOn(sched, c, s)
  {
    if sched != [] { EnabledIsLast(sched[..|sched| - 1], c, s); }
  }

  /** Action k of the schedule writes the completion register of c with s. */
  predicate CompletesAt(sched: seq<Action>, k: nat, c: nat, s: nat)
    requires k < |sched|
  {
    var st := Run(Init(), sched[..k]);
    sched[k] == Step(c / 2) && c / 2 < |st.traps| && st.traps[c / 2] == Completing(c % 2, s)
  }

  /** The controller accepts a completion iff the last write of that enable bit set it. */
  lemma AcceptedIffLastSetOn(sched: seq<Action>, k: nat, c: nat, s: nat)
    requires k < |sched| && CompletesAt(sched, k, c, s)
    ensures Run(Init(), sched[..k + 1]).log == Run(Init(), sched[..k]).log + [Completed(c, s, LastSetOn(sched[..k], c, s))]
  {
    assert sched[..k + 1][..k] == sched[..k];
    EnabledIsLast(sched[..k], c, s);
  }

  /** The completion made at k came while the enable bit was off. */
  predicate DroppedAt(sched: seq<Action>, k: nat, c: nat, s: nat)
    requires k < |sched|
  {
    CompletesAt(sched, k, c, s) && !LastSetOn(sched[..k], c, s)
  }

  /** Hart c/2 stands before writing the completion register of c with s, and the controller will ignore it. */
  predicate AboutToBeRefused(st: State, c: nat, s: nat) {
    c / 2 < |st.traps| && st.traps[c / 2] == Completing(c % 2, s) && (c, s) !in st.enabled
  }

  lemma RefusedCompleting(st: State, h: nat, c: nat, s: nat)
    requires Shape(st) && h < HARTS && st.traps[h].Completing?
    ensures (c, s) in Refused(HartStep(st, h).log) <==> (c, s) in Refused(st.log) || (h == c / 2 && AboutToBeRefused(st, c, s))
  {
    var i, r := st.traps[h].i, st.traps[h].source;
    HartStepIs(st, h);
    LogStep(st.log, Completed(2 * h + i, r, (2 * h + i, r) in st.enabled));
    ContextOf(h, i, c);
  }

  lemma ContextOf(h: nat, i: nat, c: nat)
    requires i < 2
    ensures 2 * h + i == c <==> h == c / 2 && i == c % 2
  {
  }

  lemma RefusedOtherwise(st: State, h: nat, c: nat, s: nat)
    requires Shape(st) && h < HARTS && !st.traps[h].Completing?
    ensures (c, s) in Refused(HartStep(st, h).log) <==> (c, s) in Refused(st.log)
  {
    HartStepIs(st, h);
    if st.traps[h].Calling? { LogStep(st.log, Called(h, st.traps[h].source)); }
  }

  lemma RefusedHart(st: State, h: nat, c: nat, s: nat)
    requires Shape(st) && h < HARTS
    ensures (c, s) in Refused(HartStep(st, h).log) <==> (c, s) in Refused(st.log) || (h == c / 2 && AboutToBeRefused(st, c, s))
  {
    if st.traps[h].Completing? { RefusedCompleting(st, h, c, s); } else { RefusedOtherwise(st, h, c, s); }
  }

  lemma RefusedStep(st: State, a: Action, c: nat, s: nat)
    requires Shape(st)
    ensures (c, s) in Refused(Next(st, a).log) <==> (c, s) in Refused(st.log) || (a == Step(c / 2) && AboutToBeRefused(st, c, s))
  {
    match a
    case Claim(h, r) =>
      if h < HARTS && st.traps[h].Claiming? { LogStep(st.log, Claimed(2 * h + st.traps[h].i, r)); }
    case Step(h) => if h < HARTS { RefusedHart(st, h, c, s); }
    case _ =>
  }

  /** Some completion of (c, s) came while its enable bit was off. */
  ghost predicate SomeDropped(sched: seq<Action>, c: nat, s: nat) {
    exists k: nat :: k < |sched| && DroppedAt(sched, k, c, s)
  }

  lemma DroppedBefore(sched: seq<Action>, k: nat, c: nat, s: nat)
    requires k < |sched| - 1
    ensures DroppedAt(sched[..|sched| - 1], k, c, s) <==> DroppedAt(sched, k, c, s)
  {
    assert sched[..|sched| - 1][..k] == sched[..k];
  }

  lemma SomeDroppedStep(sched: seq<Action>, c: nat, s: nat)
    requires sched != []
    ensures SomeDropped(sched, c, s) <==> SomeDropped(sched[..|sched| - 1], c, s) || DroppedAt(sched, |sched| - 1, c, s)
  {
    var before := sched[..|sched| - 1];
    if k: nat :| k < |sched| && DroppedAt(sched, k, c, s) {
      if k < |before| {
        DroppedBefore(sched, k, c, s);
        assert DroppedAt(before, k, c, s);
      }
    }
    if k: nat :| k < |before| && DroppedAt(before, k, c, s) {
      DroppedBefore(sched, k, c, s);
      assert DroppedAt(sched, k, c, s);
    }
  }

  /** The completions that were ignored are those made while the enable bit was off. */
  lemma {:induction false} RefusedIffDropped(sched: seq<Action>, c: nat, s: nat)
    ensures (c, s) in Refused(Run(Init(), sched).log) <==> SomeDropped(sched, c, s)
  {
    if sched != [] {
      var before := sched[..|sched| - 1];
      RefusedIffDropped(before, c, s);
      RunKeepsService(before);
      RefusedStep(Run(Init(), before), sched[|sched| - 1], c, s);
      SomeDroppedStep(sched, c, s);
      DroppedLast(sched, c, s);
    }
  }

  lemma DroppedLast(sched: seq<Action>, c: nat, s: nat)
    requires sched != []
    ensures var n := |sched| - 1;
            DroppedAt(sched, n, c, s) <==> sched[n] == Step(c / 2) && AboutToBeRefused(Run(Init(), sched[..n]), c, s)
  {
    EnabledIsLast(sched[..|sched| - 1], c, s);
  }

  /** A source 1..40 that no hart is serving is in service exactly when a completion of it came while its enable bit was off. */
  lemma LeftInServiceIffDropped(sched: seq<Action>, c: nat, s: nat)
    requires 0 < s <= SOURCES && !Serves(Run(Init(), sched), c, s)
    ensures (c, s) in InService(Run(Init(), sched).log) <==> SomeDropped(sched, c, s)
  {
    LeftInServiceIffRefused(sched, c, s);
    RefusedIffDropped(sched, c, s);
  }

  // ---------------------------------------------------------------- what may be claimed, by the writes made

  /** The value last written to the priority of s; it is 0 at reset. */
  function LastPriority(sched: seq<Action>, s: nat): nat {
    if sched == [] then 0
    else
      var a := sched[|sched| - 1];
      if a.SetPriority? && a.s == s then a.p else LastPriority(sched[..|sched| - 1], s)
  }

  lemma PriorityStep(st: State, a: Action, s: nat)
    ensures Priority(Next(st, a), s) == if a.SetPriority? && a.s == s then a.p else Priority(st, s)
  {
    if a.Claim? || a.Step? { assert Next(st, a).prio == st.prio; }
  }

  lemma {:induction false} PriorityIsLastWrite(sched: seq<Action>, s: nat)
    ensures Priority(Run(Init(), sched), s) == LastPriority(sched, s)
  {
    if sched != [] {
      PriorityIsLastWrite(sched[..|sched| - 1], s);
      PriorityStep(Run(Init(), sched[..|sched| - 1]), sched[|sched| - 1], s);
    }
  }

  /** The source is switched on for context c by the writes made so far. */
  predicate SwitchedOn(sched: seq<Action>, c: nat, s: nat) { LastSetOn(sched, c, s) && LastPriority(sched, s) > 0 }

  /** A source reaches a context iff its request is pending and the last writes of its enable bit and priority say so. */
  lemma DeliverableIffSwitchedOn(sched: seq<Action>, c: nat, s: nat)
    ensures Deliverable(Run(Init(), sched), c, s) <==> s != 0 && s in Run(Init(), sched).pending && SwitchedOn(sched, c, s)
  {
    EnabledIsLast(sched, c, s);
    PriorityIsLastWrite(sched, s);
  }

  /** The schedule's last action is a read of c's claim register that returns s. */
  ghost predicate EndsInClaim(sched: seq<Action>, c: nat, s: nat) {
    sched != [] && Run(Init(), sched).log == Run(Init(), sched[..|sched| - 1]).log + [Claimed(c, s)]
  }

  lemma ClaimedWas(st: State, a: Action, c: nat, s: nat)
    requires Shape(st) && Next(st, a).log == st.log + [Claimed(c, s)]
    ensures ClaimResult(st, c, s) && s != 0
  {
    match a
    case Claim(h, r) => assert Next(st, a).log[|st.log|] == Claimed(c, s);
    case Step(h) => StepClaimsNothing(st, h, s);
    case _ =>
  }

  /** The action was a read of a claim register that returned s. */
  ghost predicate LogsClaim(st: State, t: State, s: nat) { exists c: nat :: t.log == st.log + [Claimed(c, s)] }

  lemma StepClaimsNothing(st: State, h: nat, s: nat)
    requires Shape(st)
    ensures Next(st, Step(h)).pending == st.pending && !LogsClaim(st, Next(st, Step(h)), s)
  {
    if h < HARTS { HartStepIs(st, h); }
    var t := Next(st, Step(h));
    assert t.log == st.log || !t.log[|t.log| - 1].Claimed?;
    assert forall c: nat :: (st.log + [Claimed(c, s)])[|st.log|] == Claimed(c, s);
  }

  /** Every claim returns a pending source that is switched on for the context, of the highest priority, lowest id first. */
  lemma ClaimsTheBestSwitchedOn(sched: seq<Action>, c: nat, s: nat)
    requires EndsInClaim(sched, c, s)
    ensures var before := sched[..|sched| - 1];
            && s != 0 && s in Run(Init(), before).pending && SwitchedOn(before, c, s)
            && forall t :: t in Run(Init(), before).pending && t != 0 && SwitchedOn(before, c, t) ==>
                 LastPriority(before, t) < LastPriority(before, s)
                 || (LastPriority(before, t) == LastPriority(before, s) && s <= t)
  {
    var before := sched[..|sched| - 1];
    var st := Run(Init(), before);
    RunKeepsService(before);
    ClaimedWas(st, sched[|sched| - 1], c, s);
    DeliverableIffSwitchedOn(before, c, s);
    PriorityIsLastWrite(before, s);
    forall t | t in st.pending && t != 0 && SwitchedOn(before, c, t)
      ensures LastPriority(before, t) < LastPriority(before, s)
              || (LastPriority(before, t) == LastPriority(before, s) && s <= t)
    {
      DeliverableIffSwitchedOn(before, c, t);
      PriorityIsLastWrite(before, t);
    }
  }

  // ---------------------------------------------------------------- what is pending

  ghost predicate InServiceSomewhere(log: seq<Event>, s: nat) { exists c: nat :: (c, s) in InService(log) }

  /** A gateway is closed exactly while its request is pending or in service. */
  ghost predicate GatesRight(st: State) {
    forall s: nat :: s in st.closed <==> s in st.pending || InServiceSomewhere(st.log, s)
  }

  lemma ServiceAfter(st: State, t: State, e: Event, s: nat)
    requires Move(st, t, e) && OneContext(st) && OneContext(t) && Accounted(st)
    ensures InServiceSomewhere(t.log, s) <==>
            if e.Claimed? && e.source == s then true
            else if e.Completed? && e.accepted && e.source == s then false
            else InServiceSomewhere(st.log, s)
  {
    LogStep(st.log, e);
    if e.Claimed? && e.source == s {
      assert (e.c, s) in InService(t.log);
    } else if e.Completed? && e.accepted && e.source == s {
      assert (e.c, s) in InService(st.log);
    } else {
      if c: nat :| (c, s) in InService(st.log) { assert (c, s) in InService(t.log); }
      if c: nat :| (c, s) in InService(t.log) { assert (c, s) in InService(st.log); }
    }
  }

  lemma GatesMove(st: State, t: State, e: Event)
    requires Move(st, t, e) && OneContext(st) && OneContext(t) && Accounted(st) && GatesRight(st)
    ensures GatesRight(t)
  {
    forall s: nat ensures s in t.closed <==> s in t.pending || InServiceSomewhere(t.log, s) {
      ServiceAfter(st, t, e, s);
      if e.Completed? && e.source == s { assert (e.c, s) in InService(st.log); }
    }
  }

  lemma GatesQuiet(st: State, a: Action)
    requires Shape(st) && GatesRight(st) && Next(st, a).log == st.log
    ensures GatesRight(Next(st, a))
  {
    var t := Next(st, a);
    if a.Claim? || a.Step? { assert t.closed == st.closed && t.pending == st.pending; }
  }

  lemma {:induction false} GatewayClosedIff(sched: seq<Action>)
    ensures GatesRight(Run(Init(), sched))
  {
    if sched != [] {
      var before := sched[..|sched| - 1];
      GatewayClosedIff(before);
      RunKeepsService(before);
      RunKeepsService(sched);
      var st, t := Run(Init(), before), Run(Init(), sched);
      StepMoves(st, sched[|sched| - 1]);
      if t.log == st.log { GatesQuiet(st, sched[|sched| - 1]); } else { GatesMove(st, t, t.log[|t.log| - 1]); }
    }
  }

  /** A raised line is waiting: it was raised while not in service, and has not been claimed since. */
  ghost predicate Requested(sched: seq<Action>, s: nat) {
    sched != [] &&
    var before, a := sched[..|sched| - 1], sched[|sched| - 1];
    if a == Raise(s) && s != 0 && !InServiceSomewhere(Run(Init(), before).log, s) then true
    else Requested(before, s) && !LogsClaim(Run(Init(), before), Run(Init(), sched), s)
  }

  lemma PendingStep(st: State, a: Action, s: nat)
    requires Shape(st) && GatesRight(st) && OneContext(st)
    ensures var t := Next(st, a);
            s in t.pending <==>
            || (a == Raise(s) && s != 0 && !InServiceSomewhere(st.log, s))
            || (s in st.pending && !LogsClaim(st, t, s))
  {
    match a
    case Claim(h, r) => PendingClaim(st, h, r, s);
    case Step(h) => StepClaimsNothing(st, h, s);
    case _ =>
  }

  lemma PendingClaim(st: State, h: nat, r: nat, s: nat)
    requires Shape(st)
    ensures var t := Next(st, Claim(h, r));
            s in t.pending <==> s in st.pending && !LogsClaim(st, t, s)
  {
    var t := Next(st, Claim(h, r));
    if t.log != st.log {
      assert t.log == st.log + [Claimed(2 * h + st.traps[h].i, r)];
      assert t.log[|st.log|] == Claimed(2 * h + st.traps[h].i, r);
    }
  }

  lemma {:induction false} PendingIffRequested(sched: seq<Action>, s: nat)
    ensures s in Run(Init(), sched).pending <==> Requested(sched, s)
  {
    if sched != [] {
      var before := sched[..|sched| - 1];
      PendingIffRequested(before, s);
      GatewayClosedIff(before);
      RunKeepsService(before);
      PendingStep(Run(Init(), before), sched[|sched| - 1], s);
    }
  }

  // ---------------------------------------------------------------- handlers that keep their own source enabled

  /** The enable bit of (c, s) is never dropped between a claim and its completion; nothing is asked of other bits. */
  ghost predicate Disciplined(sched: seq<Action>, c: nat, s: nat) {
    sched == [] ||
    var before, a := sched[..|sched| - 1], sched[|sched| - 1];
    Disciplined(before, c, s) && (a == SetEnable(c, s, false) ==> !Serves(Run(Init(), before), c, s))
  }

  ghost predicate Kept(st: State, c: nat, s: nat) {
    (Serves(st, c, s) ==> (c, s) in st.enabled) && (c, s) !in Refused(st.log)
  }

  lemma KeptMove(st: State, t: State, e: Event, c: nat, s: nat)
    requires Move(st, t, e) && Kept(st, c, s) && t.enabled == st.enabled
    ensures Kept(t, c, s)
  {
    LogStep(st.log, e);
  }

  lemma KeptStep(st: State, a: Action, c: nat, s: nat)
    requires Shape(st) && Kept(st, c, s)
    requires a == SetEnable(c, s, false) ==> !Serves(st, c, s)
    ensures Kept(Next(st, a), c, s)
  {
    var t := Next(st, a);
    if a.SetEnable? {
      assert Serves(t, c, s) <==> Serves(st, c, s);
    } else {
      StepMoves(st, a);
      assert t.enabled == st.enabled;
      if t.log != st.log { KeptMove(st, t, t.log[|t.log| - 1], c, s); }
    }
  }

  lemma {:induction false} DisciplinedRun(sched: seq<Action>, c: nat, s: nat)
    requires Disciplined(sched, c, s)
    ensures Kept(Run(Init(), sched), c, s)
  {
    if sched != [] {
      var before := sched[..|sched| - 1];
      DisciplinedRun(before, c, s);
      RunKeepsService(before);
      KeptStep(Run(Init(), before), sched[|sched| - 1], c, s);
    }
  }

  /** Then the source is in service exactly while a hart serves it, or for good if its id was above 40 and skipped. */
  lemma EveryClaimIsReleased(sched: seq<Action>, c: nat, s: nat)
    requires Disciplined(sched, c, s)
    ensures var st := Run(Init(), sched);
            && ((c, s) in InService(st.log) <==> Serves(st, c, s) || (c, s) in Skipped(st.log))
            && (s <= SOURCES ==> ((c, s) in InService(st.log) <==> Serves(st, c, s)))
  {
    DisciplinedRun(sched, c, s);
    RunKeepsService(sched);
  }

  lemma SkippedStep(st: State, a: Action, c: nat, s: nat)
    requires Shape(st)
    ensures (c, s) in Skipped(Next(st, a).log) ==> (c, s) in Skipped(st.log) || (c, s) in st.enabled
  {
    var t := Next(st, a);
    StepMoves(st, a);
    if t.log != st.log { LogStep(st.log, t.log[|t.log| - 1]); }
  }

  /** An id is skipped on a context only after its enable bit there was set. */
  lemma {:induction false} SkippedWasEnabled(sched: seq<Action>, c: nat, s: nat)
    requires (c, s) in Skipped(Run(Init(), sched).log)
    ensures s > SOURCES && SetEnable(c, s, true) in sched
  {
    RunKeepsService(sched);
    if sched != [] {
      var before := sched[..|sched| - 1];
      RunKeepsService(before);
      SkippedStep(Run(Init(), before), sched[|sched| - 1], c, s);
      if (c, s) in Skipped(Run(Init(), before).log) {
        SkippedWasEnabled(before, c, s);
        assert SetEnable(c, s, true) in before;
      } else {
        EnabledIsLast(before, c, s);
        LastSetWasMade(before, c, s);
        assert SetEnable(c, s, true) in before;
      }
      assert sched == before + [sched[|sched| - 1]];
    }
  }

  lemma {:induction false} LastSetWasMade(sched: seq<Action>, c: nat, s: nat)
    requires LastSetOn(sched, c, s)
    ensures SetEnable(c, s, true) in sched
  {
    var before := sched[..|sched| - 1];
    if sched[|sched| - 1] != SetEnable(c, s, true) {
      LastSetWasMade(before, c, s);
      assert SetEnable(c, s, true) in before;
      assert sched == before + [sched[|sched| - 1]];
    }
  }

  // ---------------------------------------------------------------- a refused completion does happen

  ghost predicate Reachable(st: State) { exists sched :: Run(Init(), sched) == st }

  lemma ReachNext(st: State, a: Action)
    requires Reachable(st)
    ensures Reachable(Next(st, a))
  {
    var sched :| Run(Init(), sched) == st;
    assert (sched + [a])[..|sched|] == sched;
    assert Run(Init(), sched + [a]) == Next(st, a);
  }

  function Idle(): seq<Trap> { seq(HARTS, _ => Outside) }

  /** Hart h, in machine mode, is about to call the handler of the only source ever raised. */
  function AboutToCall(h: nat, s: nat): State
    requires h < HARTS
  {
    State({}, {s}, {(2 * h, s)}, map[s := 1], Idle()[h := Calling(0, s)], map[(h, s) := 1], [Claimed(2 * h, s)])
  }

  lemma ReachPending(h: nat, s: nat)
    requires h < HARTS && 0 < s <= SOURCES
    ensures Reachable(State({s}, {s}, {(2 * h, s)}, map[s := 1], Idle(), map[], []))
  {
    assert Run(Init(), []) == Init();
    assert Init() == State({}, {}, {}, map[], Idle(), map[], []);
    ReachNext(Init(), SetPriority(s, 1));
    ReachNext(State({}, {}, {}, map[s := 1], Idle(), map[], []), SetEnable(2 * h, s, true));
    ReachNext(State({}, {}, {(2 * h, s)}, map[s := 1], Idle(), map[], []), Raise(s));
  }

  lemma ReachClaimed(h: nat, s: nat)
    requires h < HARTS && 0 < s <= SOURCES
    ensures Reachable(State({}, {s}, {(2 * h, s)}, map[s := 1], Idle()[h := Counting(0, s)], map[], [Claimed(2 * h, s)]))
  {
    var st := State({s}, {s}, {(2 * h, s)}, map[s := 1], Idle(), map[], []);
    ReachPending(h, s);
    ReachNext(st, Enter(h));
    var entered := st.(traps := Idle()[h := Claiming(0)]);
    assert ClaimResult(entered, 2 * h, s);
    ReachNext(entered, Claim(h, s));
    assert Next(entered, Claim(h, s)) == entered.(pending := {}, traps := Idle()[h := Counting(0, s)], log := [Claimed(2 * h, s)]);
  }

  lemma ReachCalling(h: nat, s: nat)
    requires h < HARTS && 0 < s <= SOURCES
    ensures Reachable(AboutToCall(h, s))
  {
    var claimed := State({}, {s}, {(2 * h, s)}, map[s := 1], Idle()[h := Counting(0, s)], map[], [Claimed(2 * h, s)]);
    ReachClaimed(h, s);
    ReachNext(claimed, Step(h));
    assert Next(claimed, Step(h)) == AboutToCall(h, s);
  }

  /** The handler has dropped its own enable bit and returned. */
  function AboutToComplete(h: nat, s: nat): State
    requires h < HARTS
  {
    AboutToCall(h, s).(enabled := {}, traps := Idle()[h := Completing(0, s)], log := [Claimed(2 * h, s), Called(h, s)])
  }

  lemma ReachCompleting(h: nat, s: nat)
    requires h < HARTS && 0 < s <= SOURCES
    ensures Reachable(AboutToComplete(h, s))
  {
    var st := AboutToCall(h, s);
    ReachCalling(h, s);
    ReachNext(st, SetEnable(2 * h, s, false));
    ReachNext(st.(enabled := {}), Step(h));
    assert Next(st.(enabled := {}), Step(h)) == AboutToComplete(h, s);
  }

  /** On every hart and for every source 1..40, a handler that drops its own enable bit has its completion refused. */
  lemma RefusedReachable(h: nat, s: nat)
    requires h < HARTS && 0 < s <= SOURCES
    ensures exists sched :: (2 * h, s) in Refused(Run(Init(), sched).log)
  {
    var st := AboutToComplete(h, s);
    ReachCompleting(h, s);
    ReachNext(st, Step(h));
    assert Shape(st) && AboutToBeRefused(st, 2 * h, s);
    RefusedStep(st, Step(h), 2 * h, s);
    var sched :| Run(Init(), sched) == Next(st, Step(h));
    assert (2 * h, s) in Refused(Run(Init(), sched).log);
  }

  // ---------------------------------------------------------------- claim, call, complete, in that order

  function DutyOfTrap(h: nat, x: Trap): Duty {
    match x
    case Counting(i, s) => MustCall(2 * h + i, s)
    case Calling(i, s) => MustCall(2 * h + i, s)
    case Completing(i, s) => MustComplete(2 * h + i, s)
    case _ => Free
  }

  lemma DutyLog(log: seq<Event>, e: Event, h: nat)
    ensures DutyOf(log + [e], h) == DutyAfter(DutyOf(log, h), e, h)
  {
  }

  lemma DutyClaimed(d: Duty, g: nat, i: nat, s: nat, h: nat)
    requires i < 2
    ensures DutyAfter(d, Claimed(2 * g + i, s), h) ==
            if g != h then d else if !d.Free? then Broken else if s > SOURCES then Free else MustCall(2 * g + i, s)
  {
    assert (2 * g + i) / 2 == g;
  }

  lemma DutyClaim(st: State, g: nat, i: nat, s: nat, h: nat)
    requires Shape(st) && g < HARTS && st.traps[g] == Claiming(i) && h < HARTS
    requires DutyOf(st.log, h) == DutyOfTrap(h, st.traps[h])
    ensures DutyOf(ClaimStep(st, g, s).log, h) == DutyOfTrap(h, ClaimStep(st, g, s).traps[h])
  {
    if s != 0 {
      DutyLog(st.log, Claimed(2 * g + i, s), h);
      DutyClaimed(DutyOf(st.log, h), g, i, s, h);
    }
  }

  lemma DutyCalled(d: Duty, g: nat, s: nat, h: nat)
    ensures DutyAfter(d, Called(g, s), h) ==
            if g != h then d else if d.MustCall? && d.source == s then MustComplete(d.c, s) else Broken
  {
  }

  lemma DutyCompleted(d: Duty, g: nat, i: nat, s: nat, ok: bool, h: nat)
    requires i < 2
    ensures DutyAfter(d, Completed(2 * g + i, s, ok), h) == if g != h then d else if d == MustComplete(2 * g + i, s) then Free else Broken
  {
    assert (2 * g + i) / 2 == g;
  }

  /** One step of hart g, spelled out. */
  lemma HartStepIs(st: State, g: nat)
    requires Shape(st) && g < HARTS
    ensures var t := HartStep(st, g);
            match st.traps[g]
            case Counting(i, s) => t.traps == st.traps[g := Calling(i, s)] && t.log == st.log
            case Calling(i, s) => t.traps == st.traps[g := Completing(i, s)] && t.log == st.log + [Called(g, s)]
            case Completing(i, s) =>
              t.traps == st.traps[g := Advance(i)] && t.log == st.log + [Completed(2 * g + i, s, (2 * g + i, s) in st.enabled)]
            case _ => t == st
  {
  }

  lemma DutyCalling(st: State, g: nat, h: nat)
    requires Shape(st) && g < HARTS && h < HARTS
    requires DutyOf(st.log, h) == DutyOfTrap(h, st.traps[h])
    requires st.traps[g].Calling?
    ensures DutyOf(HartStep(st, g).log, h) == DutyOfTrap(h, HartStep(st, g).traps[h])
  {
    HartStepIs(st, g);
    DutyLog(st.log, Called(g, st.traps[g].source), h);
    DutyCalled(DutyOf(st.log, h), g, st.traps[g].source, h);
  }

  lemma DutyCompleting(st: State, g: nat, h: nat)
    requires Shape(st) && g < HARTS && h < HARTS
    requires DutyOf(st.log, h) == DutyOfTrap(h, st.traps[h])
    requires st.traps[g].Completing?
    ensures DutyOf(HartStep(st, g).log, h) == DutyOfTrap(h, HartStep(st, g).traps[h])
  {
    var i, s := st.traps[g].i, st.traps[g].source;
    HartStepIs(st, g);
    DutyLog(st.log, Completed(2 * g + i, s, (2 * g + i, s) in st.enabled), h);
    DutyCompleted(DutyOf(st.log, h), g, i, s, (2 * g + i, s) in st.enabled, h);
  }

  lemma DutyOtherwise(st: State, g: nat, h: nat)
    requires Shape(st) && g < HARTS && h < HARTS
    requires DutyOf(st.log, h) == DutyOfTrap(h, st.traps[h])
    requires !st.traps[g].Calling? && !st.traps[g].Completing?
    ensures DutyOf(HartStep(st, g).log, h) == DutyOfTrap(h, HartStep(st, g).traps[h])
  {
    HartStepIs(st, g);
  }

  lemma DutyHart(st: State, g: nat, h: nat)
    requires Shape(st) && g < HARTS && h < HARTS
    requires DutyOf(st.log, h) == DutyOfTrap(h, st.traps[h])
    ensures DutyOf(HartStep(st, g).log, h) == DutyOfTrap(h, HartStep(st, g).traps[h])
  {
    if st.traps[g].Calling? {
      DutyCalling(st, g, h);
    } else if st.traps[g].Completing? {
      DutyCompleting(st, g, h);
    } else {
      DutyOtherwise(st, g, h);
    }
  }

  lemma DutyStep(st: State, a: Action, h: nat)
    requires Shape(st) && h < HARTS && DutyOf(st.log, h) == DutyOfTrap(h, st.traps[h])
    ensures DutyOf(Next(st, a).log, h) == DutyOfTrap(h, Next(st, a).traps[h])
  {
    match a
    case Claim(g, s) => if g < HARTS && st.traps[g].Claiming? { DutyClaim(st, g, st.traps[g].i, s, h); }
    case Step(g) => if g < HARTS { DutyHart(st, g, h); }
    case _ =>
  }

  /** On every hart the log reads claim, call, complete with one id on one context, over and over. */
  lemma {:induction false} TrapsAreOrderly(sched: seq<Action>, h: nat)
    requires h < HARTS
    ensures var st := Run(Init(), sched); |st.traps| == HARTS && DutyOf(st.log, h) == DutyOfTrap(h, st.traps[h])
  {
    if sched != [] {
      var before := sched[..|sched| - 1];
      TrapsAreOrderly(before, h);
      RunKeepsService(before);
      RunKeepsService(sched);
      DutyStep(Run(Init(), before), sched[|sched| - 1], h);
    }
  }

  // ---------------------------------------------------------------- the interrupt counters

  /** Hart h has counted s but not yet called its handler. */
  predicate Counted(st: State, h: nat, s: nat) {
    h < |st.traps| && st.traps[h].Calling? && st.traps[h].source == s
  }

  lemma CallsStep(log: seq<Event>, e: Event, h: nat, s: nat)
    ensures Calls(log + [e], h, s) == Calls(log, h, s) + (if e == Called(h, s) then 1 else 0)
  {
  }

  /** The counter of (h, s) tells how often hart h called the handler of s. */
  ghost predicate CountRight(st: State, h: nat, s: nat) { Count(st, h, s) == Tally(st, h, s) % WRAP }

  function Tally(st: State, h: nat, s: nat): nat { Calls(st.log, h, s) + (if Counted(st, h, s) then 1 else 0) }

  lemma TallyHart(st: State, g: nat, h: nat, s: nat)
    requires g < |st.traps| && !st.traps[g].Counting?
    ensures Tally(HartStep(st, g), h, s) == Tally(st, h, s)
  {
    match st.traps[g]
    case Calling(_, r) => CallsStep(st.log, Called(g, r), h, s);
    case Completing(i, r) => CallsStep(st.log, Completed(2 * g + i, r, (2 * g + i, r) in st.enabled), h, s);
    case _ =>
  }

  lemma WrapAdd(a: nat, b: nat)
    ensures (a % WRAP + b) % WRAP == (a + b) % WRAP
  {
  }

  lemma CountCounting(st: State, g: nat, i: nat, r: nat, h: nat, s: nat)
    requires g < |st.traps| && st.traps[g] == Counting(i, r) && CountRight(st, h, s)
    ensures CountRight(HartStep(st, g), h, s)
  {
  }

  lemma CountHart(st: State, g: nat, h: nat, s: nat)
    requires g < |st.traps| && CountRight(st, h, s)
    ensures CountRight(HartStep(st, g), h, s)
  {
    if st.traps[g].Counting? {
      CountCounting(st, g, st.traps[g].i, st.traps[g].source, h, s);
    } else {
      TallyHart(st, g, h, s);
      assert HartStep(st, g).counts == st.counts;
    }
  }

  lemma TallyOther(st: State, a: Action, h: nat, s: nat)
    requires !a.Step?
    ensures Tally(Next(st, a), h, s) == Tally(st, h, s) && Next(st, a).counts == st.counts
  {
  }

  lemma CountStep(st: State, a: Action, h: nat, s: nat)
    requires CountRight(st, h, s)
    ensures CountRight(Next(st, a), h, s)
  {
    if a.Step? {
      if a.h < |st.traps| { CountHart(st, a.h, h, s); }
    } else {
      TallyOther(st, a, h, s);
    }
  }

  lemma {:induction false} CountsMatchCalls(sched: seq<Action>, h: nat, s: nat)
    ensures CountRight(Run(Init(), sched), h, s)
  {
    if sched != [] {
      var before := sched[..|sched| - 1];
      CountsMatchCalls(before, h, s);
      CountStep(Run(Init(), before), sched[|sched| - 1], h, s);
    }
  }

  /** Every call of the handler of s, on any hart. */
  function AllCalls(log: seq<Event>, s: nat): nat {
    if log == [] then 0
    else AllCalls(log[..|log| - 1], s) + (if log[|log| - 1].Called? && log[|log| - 1].source == s then 1 else 0)
  }

  lemma {:induction false} AllCallsSum(sched: seq<Action>, s: nat)
    ensures var log := Run(Init(), sched).log;
            AllCalls(log, s) == Calls(log, 0, s) + Calls(log, 1, s) + Calls(log, 2, s) + Calls(log, 3, s)
  {
    if sched != [] {
      var before := sched[..|sched| - 1];
      AllCallsSum(before, s);
      RunKeepsService(before);
      AllCallsStep(Run(Init(), before), sched[|sched| - 1], s);
    }
  }

  lemma AllCallsLog(log: seq<Event>, e: Event, s: nat)
    requires e.Called? ==> e.hart < HARTS
    requires AllCalls(log, s) == Calls(log, 0, s) + Calls(log, 1, s) + Calls(log, 2, s) + Calls(log, 3, s)
    ensures AllCalls(log + [e], s) ==
            Calls(log + [e], 0, s) + Calls(log + [e], 1, s) + Calls(log + [e], 2, s) + Calls(log + [e], 3, s)
  {
  }

  lemma NewCall(st: State, a: Action)
    requires Shape(st)
    ensures var t := Next(st, a);
            t.log == st.log || (t.log != [] && t.log == st.log + [t.log[|t.log| - 1]] &&
                                (t.log[|t.log| - 1].Called? ==> t.log[|t.log| - 1].hart < HARTS))
  {
  }

  lemma AllCallsStep(st: State, a: Action, s: nat)
    requires Shape(st)
    requires AllCalls(st.log, s) == Calls(st.log, 0, s) + Calls(st.log, 1, s) + Calls(st.log, 2, s) + Calls(st.log, 3, s)
    ensures var log := Next(st, a).log;
            AllCalls(log, s) == Calls(log, 0, s) + Calls(log, 1, s) + Calls(log, 2, s) + Calls(log, 3, s)
  {
    NewCall(st, a);
    var log := Next(st, a).log;
    if log != st.log { AllCallsLog(st.log, log[|log| - 1], s); }
  }

  lemma WrapSum(a: nat, b: nat, c: nat, d: nat)
    ensures (a % WRAP + b % WRAP + c % WRAP + d % WRAP) % WRAP == (a + b + c + d) % WRAP
  {
    WrapAdd(a, b % WRAP + c % WRAP + d % WRAP);
    WrapAdd(b, a + c % WRAP + d % WRAP);
    WrapAdd(c, a + b + d % WRAP);
    WrapAdd(d, a + b + c);
  }

  lemma SumOfCounts(st: State, s: nat)
    requires forall h :: 0 <= h < HARTS ==> CountRight(st, h, s) && !Counted(st, h, s)
    requires AllCalls(st.log, s) == Calls(st.log, 0, s) + Calls(st.log, 1, s) + Calls(st.log, 2, s) + Calls(st.log, 3, s)
    ensures (Count(st, 0, s) + Count(st, 1, s) + Count(st, 2, s) + Count(st, 3, s)) % WRAP == AllCalls(st.log, s) % WRAP
  {
    assert CountRight(st, 0, s) && CountRight(st, 1, s) && CountRight(st, 2, s) && CountRight(st, 3, s);
    WrapSum(Calls(st.log, 0, s), Calls(st.log, 1, s), Calls(st.log, 2, s), Calls(st.log, 3, s));
  }

  /** Between traps the four counters of a source add up to the number of calls of its handler. */
  lemma CountersAddUp(sched: seq<Action>, s: nat)
    requires forall h :: 0 <= h < HARTS ==> !Counted(Run(Init(), sched), h, s)
    ensures var st := Run(Init(), sched);
            (Count(st, 0, s) + Count(st, 1, s) + Count(st, 2, s) + Count(st, 3, s)) % WRAP == AllCalls(st.log, s) % WRAP
  {
    forall h | 0 <= h < HARTS ensures CountRight(Run(Init(), sched), h, s) {
      CountsMatchCalls(sched, h, s);
    }
    AllCallsSum(sched, s);
    SumOfCounts(Run(Init(), sched), s);
  }
}
