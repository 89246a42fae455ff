/**
 * Delivery under fair scheduling.  A round is any schedule, in any order and with any repetitions, in which every
 * sender and the receiver take a turn and nobody starts a new post or a bare wake.  After enough rounds everything
 * has come to rest; what has been delivered then depends on the order in which the trap clears `msip`.
 */
module MailboxLive {
  import opened Words
  import opened Rounds
  import opened Mailbox
  import opened MailboxWake

  // ---------------------------------------------------------------- how much is left to do

  /** A sender's remaining accesses, plus room for the trap its wake may start. */
  function SenderLeft(x: Sender): nat {
    match x
    case Ready => 0
    case TakingLock(_) => 13
    case Loading(_) => 12
    case Storing(_, _) => 11
    case Releasing(_) => 10
    case Waking(_) => 9
  }

  function SendersLeft(tx: seq<Sender>): nat {
    if tx == [] then 0 else SendersLeft(tx[..|tx| - 1]) + SenderLeft(tx[|tx| - 1])
  }

  /** The receiver's remaining accesses in its present trap. */
  function TrapLeft(o: Order, r: Receiver): nat {
    match r
    case Outside => 0
    case AcquiringLock => if o.ExecuteThenClear? then 7 else 5
    case Copying => if o.ExecuteThenClear? then 6 else 4
    case Clearing(_) => if o.ExecuteThenClear? then 5 else 3
    case Unlocking(_) => if o.ExecuteThenClear? then 4 else 2
    case Dispatching(_) => if o.ExecuteThenClear? then 3 else 1
    case ClearingMsip => if o.ExecuteThenClear? then 2 else 7
  }

  /** A pending `msip` will start one more trap, unless the present one is still to clear it. */
  function ReceiverLeft(o: Order, r: Receiver, msip: bool): nat {
    TrapLeft(o, r) + (if msip && (r.Outside? || (o.ClearThenExecute? && !r.ClearingMsip?)) then 8 else 0)
  }

  function Left(o: Order, s: State): nat { SendersLeft(s.tx) + ReceiverLeft(o, s.rx, s.msip) }

  lemma {:induction false} SendersUpdate(tx: seq<Sender>, i: nat, x: Sender)
    requires i < |tx|
    ensures SendersLeft(tx[i := x]) + SenderLeft(tx[i]) == SendersLeft(tx) + SenderLeft(x)
  {
    var n := |tx| - 1;
    if i < n {
      assert tx[i := x][..n] == tx[..n][i := x];
      SendersUpdate(tx[..n], i, x);
    } else {
      assert tx[i := x][..n] == tx[..n];
    }
  }

  lemma {:induction false} SendersBound(tx: seq<Sender>)
    ensures SendersLeft(tx) <= 13 * |tx|
    ensures SendersLeft(tx) == 0 <==> forall i :: 0 <= i < |tx| ==> tx[i].Ready?
  {
    if tx != [] {
      var n := |tx| - 1;
      SendersBound(tx[..n]);
      assert tx == tx[..n] + [tx[n]];
    }
  }

  predicate Quietly(a: Action) { !a.Post? && !a.Wake? }

  lemma SendLeft(o: Order, s: State, i: nat)
    requires i < |s.tx|
    ensures SendStep(s, i) == s || Left(o, SendStep(s, i)) < Left(o, s)
  {
    SendersUpdate(s.tx, i, SendStep(s, i).tx[i]);
    assert SendStep(s, i).tx == s.tx[i := SendStep(s, i).tx[i]];
  }

  lemma StepLeft(o: Order, s: State, a: Action)
    requires Quietly(a)
    ensures Next(o, s, a) == s || Left(o, Next(o, s, a)) < Left(o, s)
  {
    match a
    case Send(i) => if i < |s.tx| { SendLeft(o, s, i); }
    case _ =>
  }

  // ---------------------------------------------------------------- somebody can always move

  /** The turn of one agent. */
  predicate Turn(a: Action, n: nat) { a.Trap? || a.Receive? || (a.Send? && a.i < n) }

  lemma SenderCanMove(s: State, i: nat)
    requires i < |s.tx| && !s.tx[i].Ready? && (s.tx[i].TakingLock? ==> !s.mutex)
    ensures SendStep(s, i) != s
  {
    assert SendStep(s, i).tx[i] != s.tx[i];
  }

  /** No deadlock: while anything is left to do, the turn of some agent changes the state. */
  lemma SomeoneCanMove(o: Order, s: State) returns (a: Action)
    requires LockInv(s) && Left(o, s) > 0
    ensures Turn(a, |s.tx|) && Next(o, s, a) != s
  {
    if s.mutex {
      var h :| Holds(s, h);
      match h {
        case Tx(i) =>
          SenderCanMove(s, i);
          a := Send(i);
        case Rx => a := Receive;
      }
    } else if !s.rx.Outside? {
      a := Receive;
    } else if s.msip {
      a := Trap;
    } else {
      SendersBound(s.tx);
      var i :| 0 <= i < |s.tx| && !s.tx[i].Ready?;
      SenderCanMove(s, i);
      a := Send(i);
    }
  }

  // ---------------------------------------------------------------- rounds

  predicate Fair(round: seq<Action>, n: nat) {
    && (forall a :: a in round ==> Quietly(a))
    && Trap in round && Receive in round && (forall i :: 0 <= i < n ==> Send(i) in round)
  }

  lemma {:induction false} RunLeft(o: Order, s: State, more: seq<Action>)
    requires forall a :: a in more ==> Quietly(a)
    ensures Run(o, s, more) == s || Left(o, Run(o, s, more)) < Left(o, s)
  {
    if more != [] {
      var n := |more| - 1;
      assert forall a :: a in more[..n] ==> a in more;
      RunLeft(o, s, more[..n]);
      assert more[n] in more;
      StepLeft(o, Run(o, s, more[..n]), more[n]);
    }
  }

  /** A schedule that contains an action which can move the state leaves less to do. */
  lemma {:induction false} MoverRuns(o: Order, s: State, more: seq<Action>, a: Action)
    requires (forall b :: b in more ==> Quietly(b)) && a in more && Next(o, s, a) != s
    ensures Left(o, Run(o, s, more)) < Left(o, s)
  {
    var n := |more| - 1;
    var before, b := more[..n], more[n];
    assert more == before + [b];
    assert b in more && forall c :: c in before ==> c in more;
    var t := Run(o, s, before);
    StepLeft(o, t, b);
    if a in before {
      MoverRuns(o, s, before, a);
    } else {
      RunLeft(o, s, before);
    }
  }

  lemma RoundProgress(o: Order, s: State, round: seq<Action>)
    requires LockInv(s) && Fair(round, |s.tx|)
    ensures Left(o, Run(o, s, round)) < Left(o, s) || (Left(o, s) == 0 && Run(o, s, round) == s)
  {
    if Left(o, s) == 0 {
      RunLeft(o, s, round);
    } else {
      var a := SomeoneCanMove(o, s);
      assert a in round;
      MoverRuns(o, s, round, a);
    }
  }

  lemma {:induction false} RunAppend(o: Order, s: State, xs: seq<Action>, ys: seq<Action>)
    ensures Run(o, s, xs + ys) == Run(o, Run(o, s, xs), ys)
  {
    if ys == [] {
      assert xs + [] == xs;
    } else {
      var n := |ys| - 1;
      RunAppend(o, s, xs, ys[..n]);
      assert (xs + ys)[..|xs + ys| - 1] == xs + ys[..n];
    }
  }

  lemma SameCount(o: Order, s: State, a: Action)
    ensures |Next(o, s, a).tx| == |s.tx|
  {
  }

  lemma {:induction false} SameSenders(o: Order, s: State, more: seq<Action>)
    ensures |Run(o, s, more).tx| == |s.tx|
  {
    if more != [] {
      SameSenders(o, s, more[..|more| - 1]);
      SameCount(o, Run(o, s, more[..|more| - 1]), more[|more| - 1]);
    }
  }

  lemma {:induction false} RoundsFinish(o: Order, s: State, rounds: seq<seq<Action>>)
    requires Inv(s) && (forall r :: r in rounds ==> Fair(r, |s.tx|)) && Left(o, s) <= |rounds|
    ensures Left(o, Run(o, s, Flat(rounds))) == 0
    decreases |rounds|
  {
    if rounds != [] {
      var t := Run(o, s, rounds[0]);
      assert rounds[0] in rounds && forall r :: r in rounds[1..] ==> r in rounds;
      RoundProgress(o, s, rounds[0]);
      RunKeeps(o, s, rounds[0]);
      SameSenders(o, s, rounds[0]);
      RoundsFinish(o, t, rounds[1..]);
      RunAppend(o, s, rounds[0], Flat(rounds[1..]));
    }
  }

  // ---------------------------------------------------------------- the delivery theorems

  /** Everything is at rest: nobody is posting, the hart is outside its trap, and no interrupt is pending. */
  predicate AtRest(s: State) { s.rx.Outside? && !s.msip && forall i :: 0 <= i < |s.tx| ==> s.tx[i].Ready? }

  lemma RestIffNothingLeft(o: Order, s: State)
    ensures Left(o, s) == 0 <==> AtRest(s)
    ensures Left(o, s) <= 13 * |s.tx| + 13
  {
    SendersBound(s.tx);
  }

  /** From any reachable state, 13n+13 fair rounds bring n senders and the hart to rest: no deadlock, no livelock. */
  lemma ComesToRest(o: Order, n: nat, sched: seq<Action>, rounds: seq<seq<Action>>)
    requires (forall r :: r in rounds ==> Fair(r, n)) && |rounds| >= 13 * n + 13
    ensures AtRest(Run(o, Init(n), sched + Flat(rounds)))
  {
    var s := Run(o, Init(n), sched);
    RunKeepsInv(o, n, sched);
    SameSenders(o, Init(n), sched);
    RestIffNothingLeft(o, s);
    RoundsFinish(o, s, rounds);
    RunAppend(o, Init(n), sched, Flat(rounds));
    RestIffNothingLeft(o, Run(o, s, Flat(rounds)));
  }

  lemma AtRestLedger(o: Order, n: nat, sched: seq<Action>)
    requires AtRest(Run(o, Init(n), sched))
    ensures var s := Run(o, Init(n), sched); AllPosted(s.log) == Union(Handled(s.log)) + s.word
  {
    NothingLostOrInvented(o, n, sched);
  }

  /** With `msip` cleared first, every bit ever posted has then reached the handler. */
  lemma ClearFirstDelivers(n: nat, sched: seq<Action>, rounds: seq<seq<Action>>)
    requires (forall r :: r in rounds ==> Fair(r, n)) && |rounds| >= 13 * n + 13
    ensures var s := Run(ClearThenExecute, Init(n), sched + Flat(rounds));
            AtRest(s) && s.word == {} && AllPosted(s.log) == Union(Handled(s.log))
  {
    ComesToRest(ClearThenExecute, n, sched, rounds);
    ClearFirstNeverStrands(n, sched + Flat(rounds));
    AtRestLedger(ClearThenExecute, n, sched + Flat(rounds));
  }

  /** In the firmware's order the bits left over are none exactly when no post was absorbed by the last trap. */
  lemma FirmwareDeliversUnlessAbsorbed(n: nat, sched: seq<Action>, rounds: seq<seq<Action>>)
    requires (forall r :: r in rounds ==> Fair(r, n)) && |rounds| >= 13 * n + 13
    ensures var s := Run(ExecuteThenClear, Init(n), sched + Flat(rounds));
            && AtRest(s)
            && AllPosted(s.log) == Union(Handled(s.log)) + s.word
            && (s.word == {} <==> !exists k, w :: Absorbed(s.log, k, w))
  {
    ComesToRest(ExecuteThenClear, n, sched, rounds);
    var all := sched + Flat(rounds);
    StrandedIffAbsorbed(n, all);
    AtRestLedger(ExecuteThenClear, n, all);
    RunAccounts(ExecuteThenClear, n, all);
    AwakeIff(Run(ExecuteThenClear, Init(n), all).log);
  }

  lemma NobodyOnItsWay(s: State, b: Bit)
    requires AtRest(s)
    ensures !SomeOnItsWay(s, b)
  {
  }

  /** So in that order a bit has reached the handler iff some sender was asked to post it. */
  lemma ClearFirstDeliversWhatWasAsked(n: nat, sched: seq<Action>, rounds: seq<seq<Action>>, b: Bit)
    requires (forall r :: r in rounds ==> Fair(r, n)) && |rounds| >= 13 * n + 13
    ensures var all := sched + Flat(rounds);
            b in Union(Handled(Run(ClearThenExecute, Init(n), all).log)) <==> WasAsked(ClearThenExecute, n, all, b)
  {
    var all := sched + Flat(rounds);
    ClearFirstDelivers(n, sched, rounds);
    EveryPostAccountedFor(ClearThenExecute, n, all, b);
    NobodyOnItsWay(Run(ClearThenExecute, Init(n), all), b);
  }

  /** In the firmware's order it has reached the handler or waits in the word. */
  lemma FirmwareDeliversOrKeepsWhatWasAsked(n: nat, sched: seq<Action>, rounds: seq<seq<Action>>, b: Bit)
    requires (forall r :: r in rounds ==> Fair(r, n)) && |rounds| >= 13 * n + 13
    ensures var all := sched + Flat(rounds);
            var s := Run(ExecuteThenClear, Init(n), all);
            b in Union(Handled(s.log)) || b in s.word <==> WasAsked(ExecuteThenClear, n, all, b)
  {
    var all := sched + Flat(rounds);
    FirmwareDeliversUnlessAbsorbed(n, sched, rounds);
    EveryPostAccountedFor(ExecuteThenClear, n, all, b);
    NobodyOnItsWay(Run(ExecuteThenClear, Init(n), all), b);
  }

  // ---------------------------------------------------------------- a blocked trap does happen

  /** The trap can find the lock held: a wake from an earlier post comes while the next post is under way. */
  lemma BlockedReachable(f: Word)
    ensures exists sched :: var s := Run(ExecuteThenClear, Init(1), sched); Holds(s, Tx(0)) && s.rx.AcquiringLock?
  {
    var log := [] + [Stored(0, f)] + [Woke(0, f)];
    assert Init(1) == State(false, {}, false, [Ready], Outside, []) && Run(ExecuteThenClear, Init(1), []) == Init(1);
    ReachPost({}, false, Outside, [], f);
    ReachStore({} + f, true, Outside, log, f);
    var t := State(true, {} + f + f, true, [Releasing(f)], Outside, log + [Stored(0, f)]);
    ReachNext(t, Trap);
    var sched :| Run(ExecuteThenClear, Init(1), sched) == Next(ExecuteThenClear, t, Trap);
    assert Holds(Run(ExecuteThenClear, Init(1), sched), Tx(0));
  }
}
