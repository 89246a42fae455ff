/**
 * Delivery of external interrupts under fair scheduling.  A round is any schedule, in any order and with any
 * repetitions, in which every hart may enter its trap, read the claim register and take its next step, while no
 * device raises a line and nobody writes an enable bit or a priority.
 */
module PlicLive {
  import opened Plic
  import opened Rounds

  // ---------------------------------------------------------------- quiet actions and rounds

  predicate Quiet(a: Action) { a.Enter? || a.Claim? || a.Step? }

  /** Every hart gets its turns; a read of the claim register may return any of `ids` or 0. */
  predicate Fair(round: seq<Action>, ids: set<nat>) {
    && (forall a :: a in round ==> Quiet(a))
    && (forall h :: 0 <= h < HARTS ==> Enter(h) in round && Step(h) in round && Claim(h, 0) in round)
    && (forall h, s :: 0 <= h < HARTS && s in ids ==> Claim(h, s) in round)
  }

  /** What no quiet action changes. */
  ghost predicate Settings(st: State, t: State) {
    t.enabled == st.enabled && t.prio == st.prio && t.pending <= st.pending && |t.traps| == |st.traps|
  }

  lemma QuietKeeps(st: State, a: Action)
    requires Shape(st) && Quiet(a)
    ensures Shape(Next(st, a)) && Settings(st, Next(st, a))
  {
    StepMoves(st, a);
  }

  // ---------------------------------------------------------------- the way to a claim

  /** Where a hart stands in the cycle of its trap. */
  function Place(x: Trap): nat {
    match x
    case Outside => 0
    case Claiming(i) => if i == 0 then 1 else 5
    case Counting(i, _) => if i == 0 then 2 else 6
    case Calling(i, _) => if i == 0 then 3 else 7
    case Completing(i, _) => if i == 0 then 4 else 8
  }

  /** Steps to the claim of pass i, at most. */
  function Distance(x: Trap, i: nat): (d: nat)
    requires i < 2
    ensures d <= 8
  {
    var goal := if i == 0 then 1 else 5;
    if Place(x) <= goal then goal - Place(x) else goal + 9 - Place(x)
  }

  /** What is left before a source deliverable on context c is claimed. */
  function Left(st: State, c: nat): nat
    requires Shape(st) && c / 2 < HARTS
  {
    10 * |st.pending| + Distance(st.traps[c / 2], c % 2)
  }

  /** Nothing that matters to hart h has moved. */
  ghost predicate Waits(st: State, t: State, h: nat)
    requires h < |st.traps|
  {
    Settings(st, t) && t.traps[h] == st.traps[h] && t.pending == st.pending
  }

  lemma ClaimShrinks(st: State, h: nat, s: nat)
    requires Shape(st) && h < HARTS && st.traps[h].Claiming? && s in st.pending
    ensures |ClaimStep(st, h, s).pending| == |st.pending| - 1 || s == 0
  {
  }

  lemma NothingToClaim(st: State, c: nat, s: nat, r: nat)
    requires Deliverable(st, c, s) && ClaimResult(st, c, r)
    ensures r != 0 && r in st.pending
  {
  }

  lemma ClaimLeft(st: State, g: nat, r: nat, c: nat, s: nat)
    requires Shape(st) && c / 2 < HARTS && Deliverable(st, c, s) && g < HARTS
    requires st.traps[g].Claiming? && ClaimResult(st, 2 * g + st.traps[g].i, r)
    ensures var t := ClaimStep(st, g, r);
            Shape(t) && (Left(t, c) < Left(st, c) || (g != c / 2 && Waits(st, t, c / 2)))
  {
    ClaimMoves(st, g, r);
    if r != 0 {
      ClaimShrinks(st, g, r);
    } else if g == c / 2 && st.traps[g].i == c % 2 {
      NothingToClaim(st, c, s, r);
    }
  }

  lemma PlaceForward(x: Trap, y: Trap, j: nat)
    requires j < 2
    requires match x
             case Counting(i, s) => i < 2 && y == Calling(i, s)
             case Calling(i, s) => i < 2 && y == Completing(i, s)
             case Completing(i, _) => i < 2 && y == Advance(i)
             case _ => false
    ensures Distance(y, j) < Distance(x, j)
  {
  }

  lemma HartLeft(st: State, g: nat, c: nat)
    requires Shape(st) && c / 2 < HARTS && g < HARTS
    ensures var t := HartStep(st, g);
            Shape(t) && (Left(t, c) < Left(st, c) || Waits(st, t, c / 2))
  {
    HartMoves(st, g);
    HartStepIs(st, g);
    var t := HartStep(st, g);
    assert t.pending == st.pending && Settings(st, t);
    if g == c / 2 && t != st { PlaceForward(st.traps[g], t.traps[g], c % 2); }
  }

  /** While s is deliverable on c, a quiet action brings its claim nearer or leaves everything that matters alone. */
  lemma StepLeft(st: State, a: Action, c: nat, s: nat)
    requires Shape(st) && c / 2 < HARTS && Deliverable(st, c, s) && Quiet(a)
    ensures var t := Next(st, a);
            Shape(t) && (Left(t, c) < Left(st, c) || Waits(st, t, c / 2))
  {
    QuietKeeps(st, a);
    match a
    case Claim(g, r) =>
      if g < HARTS && st.traps[g].Claiming? && ClaimResult(st, 2 * g + st.traps[g].i, r) { ClaimLeft(st, g, r, c, s); }
    case Step(g) => if g < HARTS { HartLeft(st, g, c); }
    case _ =>
  }

  /** The read of the claim register has a result: a highest-priority lowest-id deliverable source, or 0. */
  lemma {:induction false} BestOf(st: State, c: nat, ids: set<nat>) returns (r: nat)
    requires ids <= st.pending
    ensures r == 0 ==> forall t :: t in ids ==> !Deliverable(st, c, t)
    ensures r != 0 ==> r in ids && Deliverable(st, c, r)
    ensures forall t :: t in ids && Deliverable(st, c, t) ==>
              Priority(st, t) < Priority(st, r) || (Priority(st, t) == Priority(st, r) && r <= t)
    decreases ids
  {
    if ids == {} {
      r := 0;
    } else {
      var x :| x in ids;
      r := BestOf(st, c, ids - {x});
      if Deliverable(st, c, x)
         && (r == 0 || Priority(st, r) < Priority(st, x) || (Priority(st, r) == Priority(st, x) && x <= r)) {
        r := x;
      }
    }
  }

  /** The action is the one that moves hart h on. */
  predicate Moves(st: State, h: nat, a: Action)
    requires h < |st.traps|
  {
    match st.traps[h]
    case Outside => a == Enter(h)
    case Claiming(i) => a.Claim? && a.h == h && (a.s == 0 || a.s in st.pending) && ClaimResult(st, 2 * h + i, a.s)
    case _ => a == Step(h)
  }

  lemma HartCanMove(st: State, h: nat) returns (a: Action)
    requires Shape(st) && h < HARTS
    ensures Moves(st, h, a)
  {
    match st.traps[h] {
      case Outside => a := Enter(h);
      case Claiming(i) =>
        var r := BestOf(st, 2 * h + i, st.pending);
        a := Claim(h, r);
      case _ => a := Step(h);
    }
  }

  lemma MoveCounts(st: State, h: nat, a: Action, c: nat, s: nat)
    requires Shape(st) && c / 2 == h < HARTS && Deliverable(st, c, s) && Moves(st, h, a)
    ensures Shape(Next(st, a)) && Left(Next(st, a), c) < Left(st, c)
  {
    StepLeft(st, a, c, s);
  }

  // ---------------------------------------------------------------- rounds bring the claim

  /** The claim of s on c has happened somewhere, or is nearer than in st. */
  ghost predicate Nearer(st: State, t: State, c: nat, s: nat)
    requires Shape(st) && Shape(t) && c / 2 < HARTS
  {
    s !in t.pending || Left(t, c) < Left(st, c)
  }

  lemma {:induction false} RunLeft(st: State, more: seq<Action>, c: nat, s: nat)
    requires Shape(st) && c / 2 < HARTS && Deliverable(st, c, s) && forall a :: a in more ==> Quiet(a)
    ensures var u := Run(st, more);
            Shape(u) && Settings(st, u) && (Nearer(st, u, c, s) || Waits(st, u, c / 2))
  {
    if more != [] {
      var before, a := more[..|more| - 1], more[|more| - 1];
      assert more == before + [a];
      assert a in more && forall b :: b in before ==> b in more;
      RunLeft(st, before, c, s);
      var t := Run(st, before);
      QuietKeeps(t, a);
      if s in t.pending { StepLeft(t, a, c, s); }
    }
  }

  lemma SameMove(st: State, t: State, h: nat, a: Action)
    requires h < |st.traps| && Waits(st, t, h) && Moves(st, h, a)
    ensures Moves(t, h, a)
  {
  }

  lemma {:induction false} MoverRuns(st: State, more: seq<Action>, a: Action, c: nat, s: nat)
    requires Shape(st) && c / 2 < HARTS && Deliverable(st, c, s) && forall b :: b in more ==> Quiet(b)
    requires a in more && Moves(st, c / 2, a)
    ensures Shape(Run(st, more)) && Nearer(st, Run(st, more), c, s)
  {
    var before, b := more[..|more| - 1], more[|more| - 1];
    assert more == before + [b];
    assert b in more && forall d :: d in before ==> d in more;
    RunLeft(st, before, c, s);
    RunLeft(st, more, c, s);
    var t := Run(st, before);
    QuietKeeps(t, b);
    if a in before { MoverRuns(st, before, a, c, s); }
    if s in t.pending {
      StepLeft(t, b, c, s);
      if a !in before && Waits(st, t, c / 2) {
        SameMove(st, t, c / 2, a);
        MoveCounts(t, c / 2, a, c, s);
      }
    }
  }

  lemma RoundClaims(st: State, round: seq<Action>, ids: set<nat>, c: nat, s: nat)
    requires Shape(st) && c / 2 < HARTS && Deliverable(st, c, s) && Fair(round, ids) && st.pending <= ids
    ensures Shape(Run(st, round)) && Settings(st, Run(st, round)) && Nearer(st, Run(st, round), c, s)
  {
    var a := HartCanMove(st, c / 2);
    assert a in round;
    RunLeft(st, round, c, s);
    MoverRuns(st, round, a, c, s);
  }

  lemma {:induction false} QuietRun(st: State, more: seq<Action>)
    requires Shape(st) && forall a :: a in more ==> Quiet(a)
    ensures Shape(Run(st, more)) && Settings(st, Run(st, more))
  {
    if more != [] {
      var before, a := more[..|more| - 1], more[|more| - 1];
      assert more == before + [a];
      assert a in more && forall b :: b in before ==> b in more;
      QuietRun(st, before);
      QuietKeeps(Run(st, before), a);
    }
  }

  lemma FlatIsQuiet(rounds: seq<seq<Action>>, ids: set<nat>)
    requires forall r :: r in rounds ==> Fair(r, ids)
    ensures forall a :: a in Flat(rounds) ==> Quiet(a)
  {
    forall a | a in Flat(rounds) ensures Quiet(a) { InFlat(rounds, a); }
  }

  /** After as many rounds as are left, s is no longer pending. */
  lemma {:induction false} RoundsClaim(st: State, rounds: seq<seq<Action>>, ids: set<nat>, c: nat, s: nat)
    requires Shape(st) && c / 2 < HARTS && Deliverable(st, c, s) && st.pending <= ids
    requires (forall r :: r in rounds ==> Fair(r, ids)) && Left(st, c) <= |rounds|
    ensures s !in Run(st, Flat(rounds)).pending
    decreases |rounds|
  {
    assert s in st.pending && |st.pending| > 0;
    if rounds != [] {
      var t, rest := Run(st, rounds[0]), rounds[1..];
      assert rounds[0] in rounds && forall r :: r in rest ==> r in rounds;
      RoundClaims(st, rounds[0], ids, c, s);
      RunAppend(st, rounds[0], Flat(rest));
      FlatIsQuiet(rest, ids);
      if s in t.pending {
        RoundsClaim(t, rest, ids, c, s);
      } else {
        QuietRun(t, Flat(rest));
      }
    }
  }

  // ---------------------------------------------------------------- from the claim to the call

  /** Hart h has claimed s and not yet called its handler. */
  predicate Holds(st: State, h: nat, s: nat) {
    h < |st.traps| && (st.traps[h].Counting? || st.traps[h].Calling?) && st.traps[h].source == s
  }

  /** The handler of s was called at or after position `from`. */
  ghost predicate CalledSince(log: seq<Event>, from: nat, s: nat) {
    exists k :: from <= k < |log| && log[k].Called? && log[k].source == s
  }

  /** A source that was pending is pending, in some hart's hands, or called. */
  ghost predicate OnItsWay(st: State, from: nat, s: nat) {
    from <= |st.log| && (s in st.pending || (exists h :: Holds(st, h, s)) || CalledSince(st.log, from, s))
  }

  lemma LogGrows(st: State, a: Action)
    requires Shape(st)
    ensures st.log <= Next(st, a).log
  {
    NewCall(st, a);
  }

  lemma StillCalled(st: State, a: Action, from: nat, s: nat)
    requires Shape(st) && CalledSince(st.log, from, s)
    ensures CalledSince(Next(st, a).log, from, s)
  {
    LogGrows(st, a);
    var k :| from <= k < |st.log| && st.log[k].Called? && st.log[k].source == s;
    assert Next(st, a).log[k] == st.log[k];
  }

  /** One quiet step of a hart that has s in hand. */
  lemma HandStep(st: State, a: Action, h: nat, from: nat, s: nat)
    requires Shape(st) && Quiet(a) && Holds(st, h, s) && from <= |st.log|
    ensures var t := Next(st, a);
            && (a != Step(h) ==> t.traps[h] == st.traps[h])
            && (a == Step(h) && st.traps[h].Counting? ==> t.traps[h].Calling? && Holds(t, h, s))
            && (a == Step(h) && st.traps[h].Calling? ==> CalledSince(t.log, from, s))
  {
    var t := Next(st, a);
    if a == Step(h) && st.traps[h].Calling? {
      assert t.log[|st.log|] == Called(h, s);
    }
  }

  lemma WayStep(st: State, a: Action, from: nat, s: nat)
    requires Shape(st) && Quiet(a) && s <= SOURCES && OnItsWay(st, from, s)
    ensures OnItsWay(Next(st, a), from, s)
  {
    var t := Next(st, a);
    LogGrows(st, a);
    if CalledSince(st.log, from, s) {
      StillCalled(st, a, from, s);
    } else if h :| Holds(st, h, s) {
      HandStep(st, a, h, from, s);
      assert Holds(t, h, s) || CalledSince(t.log, from, s);
    } else if s !in t.pending {
      assert Holds(t, a.h, s);
    }
  }

  lemma {:induction false} WayRun(st: State, more: seq<Action>, from: nat, s: nat)
    requires Shape(st) && s <= SOURCES && OnItsWay(st, from, s) && forall a :: a in more ==> Quiet(a)
    ensures OnItsWay(Run(st, more), from, s)
  {
    if more != [] {
      var before, a := more[..|more| - 1], more[|more| - 1];
      assert more == before + [a];
      assert a in more && forall b :: b in before ==> b in more;
      WayRun(st, before, from, s);
      QuietRun(st, before);
      WayStep(Run(st, before), a, from, s);
    }
  }

  /** Steps to the call: two from Counting, one from Calling. */
  function HandLeft(x: Trap): nat { if x.Counting? then 2 else if x.Calling? then 1 else 0 }

  /** A run in which hart h steps brings the source in its hand nearer to its call. */
  lemma {:induction false} HandRun(st: State, more: seq<Action>, h: nat, from: nat, s: nat)
    requires Shape(st) && Holds(st, h, s) && from <= |st.log| && forall a :: a in more ==> Quiet(a)
    ensures var u := Run(st, more);
            || CalledSince(u.log, from, s)
            || (Holds(u, h, s) && HandLeft(u.traps[h]) <= HandLeft(st.traps[h]) && from <= |u.log|
                && (Step(h) in more ==> HandLeft(u.traps[h]) < HandLeft(st.traps[h])))
  {
    if more != [] {
      var before, a := more[..|more| - 1], more[|more| - 1];
      assert more == before + [a];
      assert a in more && forall b :: b in before ==> b in more;
      HandRun(st, before, h, from, s);
      QuietRun(st, before);
      var t := Run(st, before);
      LogGrows(t, a);
      if CalledSince(t.log, from, s) { StillCalled(t, a, from, s); } else { HandStep(t, a, h, from, s); }
    }
  }

  lemma {:induction false} CalledStays(st: State, more: seq<Action>, from: nat, s: nat)
    requires Shape(st) && CalledSince(st.log, from, s) && forall a :: a in more ==> Quiet(a)
    ensures CalledSince(Run(st, more).log, from, s)
  {
    if more != [] {
      var before, a := more[..|more| - 1], more[|more| - 1];
      assert more == before + [a];
      assert a in more && forall b :: b in before ==> b in more;
      CalledStays(st, before, from, s);
      QuietRun(st, before);
      StillCalled(Run(st, before), a, from, s);
    }
  }

  lemma {:induction false} RoundsCall(st: State, rounds: seq<seq<Action>>, ids: set<nat>, h: nat, from: nat, s: nat)
    requires Shape(st) && Holds(st, h, s) && from <= |st.log|
    requires (forall r :: r in rounds ==> Fair(r, ids)) && HandLeft(st.traps[h]) <= |rounds|
    ensures CalledSince(Run(st, Flat(rounds)).log, from, s)
    decreases |rounds|
  {
    var t, rest := Run(st, rounds[0]), rounds[1..];
    assert rounds[0] in rounds && forall r :: r in rest ==> r in rounds;
    assert Step(h) in rounds[0];
    HandRun(st, rounds[0], h, from, s);
    QuietRun(st, rounds[0]);
    RunAppend(st, rounds[0], Flat(rest));
    FlatIsQuiet(rest, ids);
    if CalledSince(t.log, from, s) { CalledStays(t, Flat(rest), from, s); } else { RoundsCall(t, rest, ids, h, from, s); }
  }

  // ---------------------------------------------------------------- the delivery theorem

  lemma ClaimedThenCalled(st: State, first: seq<seq<Action>>, last: seq<seq<Action>>, ids: set<nat>, c: nat, s: nat)
    requires Shape(st) && c / 2 < HARTS && s <= SOURCES && Deliverable(st, c, s) && st.pending <= ids
    requires (forall r :: r in first ==> Fair(r, ids)) && (forall r :: r in last ==> Fair(r, ids))
    requires Left(st, c) <= |first| && 2 <= |last|
    ensures var t := Run(Run(st, Flat(first)), Flat(last));
            s !in t.pending && CalledSince(t.log, |st.log|, s)
  {
    var u := Run(st, Flat(first));
    FlatIsQuiet(first, ids);
    FlatIsQuiet(last, ids);
    RoundsClaim(st, first, ids, c, s);
    QuietRun(st, Flat(first));
    WayRun(st, Flat(first), |st.log|, s);
    QuietRun(u, Flat(last));
    if CalledSince(u.log, |st.log|, s) {
      CalledStays(u, Flat(last), |st.log|, s);
    } else {
      var h :| Holds(u, h, s);
      RoundsCall(u, last, ids, h, |st.log|, s);
    }
  }

  /**
   * From any reachable state, a source 1..40 that is deliverable on some context has been claimed and its handler called
   * after 10 * p + 10 rounds, p being the number of pending sources; it is then deliverable nowhere.
   */
  lemma DeliverableIsCalled(sched: seq<Action>, rounds: seq<seq<Action>>, c: nat, s: nat)
    requires c / 2 < HARTS && s <= SOURCES && Deliverable(Run(Init(), sched), c, s)
    requires forall r :: r in rounds ==> Fair(r, Run(Init(), sched).pending)
    requires |rounds| >= 10 * |Run(Init(), sched).pending| + 10
    ensures var st, t := Run(Init(), sched), Run(Init(), sched + Flat(rounds));
            CalledSince(t.log, |st.log|, s) && s !in t.pending && forall d :: !Deliverable(t, d, s)
  {
    var st := Run(Init(), sched);
    var k := |rounds| - 2;
    RunKeepsService(sched);
    assert rounds == rounds[..k] + rounds[k..];
    FlatAppend(rounds[..k], rounds[k..]);
    RunAppend(Init(), sched, Flat(rounds));
    RunAppend(st, Flat(rounds[..k]), Flat(rounds[k..]));
    ClaimedThenCalled(st, rounds[..k], rounds[k..], st.pending, c, s);
  }

  /** So after that many rounds no source 1..40 is deliverable on any context. */
  lemma NothingLeftToDeliver(sched: seq<Action>, rounds: seq<seq<Action>>, c: nat, s: nat)
    requires c / 2 < HARTS && s <= SOURCES
    requires forall r :: r in rounds ==> Fair(r, Run(Init(), sched).pending)
    requires |rounds| >= 10 * |Run(Init(), sched).pending| + 10
    ensures !Deliverable(Run(Init(), sched + Flat(rounds)), c, s)
  {
    var st := Run(Init(), sched);
    RunKeepsService(sched);
    FlatIsQuiet(rounds, st.pending);
    QuietRun(st, Flat(rounds));
    RunAppend(Init(), sched, Flat(rounds));
    if Deliverable(st, c, s) { DeliverableIsCalled(sched, rounds, c, s); }
  }

  /** In terms of what devices did and what was written: a waiting request that is switched on for some context is called. */
  lemma RequestIsCalled(sched: seq<Action>, rounds: seq<seq<Action>>, c: nat, s: nat)
    requires c / 2 < HARTS && 0 < s <= SOURCES && Requested(sched, s) && SwitchedOn(sched, c, s)
    requires forall r :: r in rounds ==> Fair(r, Run(Init(), sched).pending)
    requires |rounds| >= 10 * |Run(Init(), sched).pending| + 10
    ensures var st, t := Run(Init(), sched), Run(Init(), sched + Flat(rounds));
            CalledSince(t.log, |st.log|, s) && s !in t.pending
  {
    PendingIffRequested(sched, s);
    DeliverableIffSwitchedOn(sched, c, s);
    DeliverableIsCalled(sched, rounds, c, s);
  }
}
