/**
 * Wake-up accounting of the mailbox: when can posted bits sit in the word while `msip` is 0?
 * The trap clears `msip` after its handler (Source/dev/irq.c), so a wake store can be absorbed.
 */
module MailboxWake {
  import opened Words
  import opened Mailbox

  // ---------------------------------------------------------------- msip

  /** The event is a store of 1 to `msip`, with or without a post. */
  predicate Wakes(e: Event) { e.Woke? || e.Nudged? }

  /** A wake store is more recent than the last clearing of `msip`. */
  function Awake(log: seq<Event>): bool {
    log != [] &&
    var e := log[|log| - 1];
    Wakes(e) || (!e.MsipCleared? && Awake(log[..|log| - 1]))
  }

  lemma {:induction false} AwakeIff(log: seq<Event>)
    ensures Awake(log) <==> exists w :: Last(MsipClearing, log) < w < |log| && Wakes(log[w])
  {
    if log != [] {
      var before, e := log[..|log| - 1], log[|log| - 1];
      AwakeIff(before);
      if Awake(log) && !Wakes(e) {
        var w :| Last(MsipClearing, before) < w < |before| && Wakes(before[w]);
        assert log[w] == before[w];
      }
      if w :| Last(MsipClearing, log) < w < |log| && Wakes(log[w]) {
        assert w < |before| ==> before[w] == log[w];
      }
    }
  }

  // ---------------------------------------------------------------- posts and their wakes

  /** The wake of the post stored at `k` is already in the log. */
  ghost predicate Settled(log: seq<Event>, k: int)
    requires 0 <= k < |log| && log[k].Stored?
  {
    exists w :: k < w < |log| && log[w] == Woke(log[k].sender, log[k].flag)
  }

  /** The sender that stored `e` has still to raise `msip`. */
  predicate WakePending(tx: seq<Sender>, e: Event)
    requires e.Stored?
  {
    e.sender < |tx| && (tx[e.sender] == Releasing(e.flag) || tx[e.sender] == Waking(e.flag))
  }

  ghost predicate WakesFollow(s: State) {
    forall k :: Last(Collecting, s.log) < k < |s.log| && s.log[k].Stored? ==> Settled(s.log, k) || WakePending(s.tx, s.log[k])
  }

  // ---------------------------------------------------------------- where the landmarks stand

  /** Execute first, clear last: collection, unlock and `msip` clear alternate. */
  ghost predicate InTurn(rx: Receiver, log: seq<Event>) {
    var c, u, m := Last(Collecting, log), Last(Freeing, log), Last(MsipClearing, log);
    && (rx.Unlocking? ==> m < c && u < c)
    && (rx.Dispatching? || rx.ClearingMsip? ==> m < c < u)
    && (rx.Outside? || rx.AcquiringLock? || rx.Copying? || rx.Clearing? ==> c < u < m || c == u == m == -1)
  }

  /** Every store since the last collection came after the unlock that followed it. */
  ghost predicate StoresAfterUnlock(rx: Receiver, log: seq<Event>) {
    var c, u := Last(Collecting, log), Last(Freeing, log);
    forall k :: c < k < |log| && log[k].Stored? ==> !rx.Unlocking? && u < k
  }

  ghost predicate Window(rx: Receiver, log: seq<Event>) { InTurn(rx, log) && StoresAfterUnlock(rx, log) }

  /** Clear first, execute last: every collection follows the `msip` clear of its trap. */
  ghost predicate ClearedFirst(rx: Receiver, log: seq<Event>) {
    var c, m := Last(Collecting, log), Last(MsipClearing, log);
    if rx.AcquiringLock? || rx.Copying? || rx.Clearing? then c < m else m < c || c == m == -1
  }

  lemma LastStep(m: Landmark, log: seq<Event>, e: Event)
    ensures Last(m, log + [e]) == if Marks(m, e) then |log| else Last(m, log)
  {
  }

  lemma AwakeStep(log: seq<Event>, e: Event)
    ensures Awake(log + [e]) == (Wakes(e) || (!e.MsipCleared? && Awake(log)))
  {
  }

  // ---------------------------------------------------------------- what a step does

  /** What a step that logs `e` does to the control state. */
  ghost predicate Move(o: Order, s: State, t: State, e: Event) {
    && t.log == s.log + [e]
    && |t.tx| == |s.tx|
    && t.msip == (Wakes(e) || (!e.MsipCleared? && s.msip))
    && (e.Stored? ==> e.sender < |s.tx| && s.tx[e.sender].Storing? && t.tx == s.tx[e.sender := Releasing(e.flag)]
                      && t.rx == s.rx && !s.rx.Unlocking?)
    && (e.Woke? ==> e.sender < |s.tx| && s.tx[e.sender] == Waking(e.flag) && t.tx == s.tx[e.sender := Ready] && t.rx == s.rx)
    && (e.Nudged? ==> t.tx == s.tx && t.rx == s.rx)
    && (e.Collected? ==> s.rx.Clearing? && t.rx.Unlocking? && t.tx == s.tx)
    && (e.Unlocked? ==> s.rx.Unlocking? && t.rx.Dispatching? && t.tx == s.tx)
    && (e.Dispatched? ==> s.rx.Dispatching? && t.tx == s.tx && (if o.ExecuteThenClear? then t.rx.ClearingMsip? else t.rx.Outside?))
    && (e.MsipCleared? ==> s.rx.ClearingMsip? && t.tx == s.tx && (if o.ExecuteThenClear? then t.rx.Outside? else t.rx.AcquiringLock?))
  }

  /** The receiver states between which a step logs nothing. */
  predicate SamePhase(o: Order, r: Receiver, q: Receiver) {
    || r == q
    || (r.AcquiringLock? && q.Copying?)
    || (r.Copying? && q.Clearing?)
    || (r.Outside? && (if o.ExecuteThenClear? then q.AcquiringLock? else q.ClearingMsip?))
  }

  /** A sender's moves that log nothing; a sender that has stored stays on its way to the wake. */
  predicate SilentSender(a: Sender, b: Sender) {
    a == b || (a.Releasing? && b == Waking(a.flag)) || (!a.Releasing? && !a.Waking? && !b.Releasing? && !b.Waking?)
  }

  ghost predicate Silent(o: Order, s: State, t: State) {
    && t.log == s.log && t.msip == s.msip && |t.tx| == |s.tx|
    && SamePhase(o, s.rx, t.rx)
    && forall i :: 0 <= i < |s.tx| ==> SilentSender(s.tx[i], t.tx[i])
  }

  lemma SendMoves(o: Order, s: State, i: nat)
    requires LockInv(s) && i < |s.tx|
    ensures var t := SendStep(s, i);
            Silent(o, s, t) || (t.log != [] && Move(o, s, t, t.log[|t.log| - 1]))
  {
    var t := SendStep(s, i);
    match s.tx[i]
    case Storing(f, _) =>
      assert Holds(s, Tx(i)) && !Holds(s, Rx);
      assert Move(o, s, t, Stored(i, f));
    case Waking(f) => assert Move(o, s, t, Woke(i, f));
    case _ => assert Silent(o, s, t);
  }

  lemma ReceiveMoves(o: Order, s: State)
    ensures var t := ReceiveStep(o, s);
            Silent(o, s, t) || (t.log != [] && Move(o, s, t, t.log[|t.log| - 1]))
  {
    var t := ReceiveStep(o, s);
    match s.rx
    case Clearing(c) => assert Move(o, s, t, Collected(c));
    case Unlocking(_) => assert Move(o, s, t, Unlocked);
    case Dispatching(c) => assert Move(o, s, t, Dispatched(c));
    case ClearingMsip => assert Move(o, s, t, MsipCleared);
    case _ => assert Silent(o, s, t);
  }

  lemma StepMoves(o: Order, s: State, a: Action)
    requires LockInv(s)
    ensures var t := Next(o, s, a);
            Silent(o, s, t) || (t.log != [] && Move(o, s, t, t.log[|t.log| - 1]))
  {
    match a
    case Send(i) => if i < |s.tx| { SendMoves(o, s, i); }
    case Wake => assert Move(o, s, Next(o, s, a), Nudged);
    case Receive => ReceiveMoves(o, s);
    case _ => assert Silent(o, s, Next(o, s, a));
  }

  // ---------------------------------------------------------------- invariants

  lemma WakesFollowSilent(o: Order, s: State, t: State)
    requires Silent(o, s, t) && WakesFollow(s)
    ensures WakesFollow(t)
  {
  }

  lemma WakesFollowMove(o: Order, s: State, t: State, e: Event)
    requires Move(o, s, t, e) && WakesFollow(s)
    ensures WakesFollow(t)
  {
  }

  lemma InTurnMove(s: State, t: State, e: Event)
    requires Move(ExecuteThenClear, s, t, e) && InTurn(s.rx, s.log)
    ensures InTurn(t.rx, t.log)
  {
    LastStep(Collecting, s.log, e);
    LastStep(Freeing, s.log, e);
    LastStep(MsipClearing, s.log, e);
  }

  lemma StoresMove(s: State, t: State, e: Event)
    requires Move(ExecuteThenClear, s, t, e) && StoresAfterUnlock(s.rx, s.log)
    ensures StoresAfterUnlock(t.rx, t.log)
  {
    LastStep(Collecting, s.log, e);
    LastStep(Freeing, s.log, e);
    forall k | Last(Collecting, t.log) < k < |t.log| && t.log[k].Stored? ensures !t.rx.Unlocking? && Last(Freeing, t.log) < k {
      if k < |s.log| { assert s.log[k] == t.log[k]; }
    }
  }

  lemma WindowMove(s: State, t: State, e: Event)
    requires Move(ExecuteThenClear, s, t, e) && Window(s.rx, s.log)
    ensures Window(t.rx, t.log)
  {
    InTurnMove(s, t, e);
    StoresMove(s, t, e);
  }

  lemma ClearedFirstMove(s: State, t: State, e: Event)
    requires Move(ClearThenExecute, s, t, e) && ClearedFirst(s.rx, s.log)
    ensures ClearedFirst(t.rx, t.log)
  {
  }

  ghost predicate Accounts(o: Order, s: State) {
    && s.msip == Awake(s.log)
    && WakesFollow(s)
    && (if o.ExecuteThenClear? then Window(s.rx, s.log) else ClearedFirst(s.rx, s.log))
  }

  lemma AccountsStep(o: Order, s: State, a: Action)
    requires LockInv(s) && Accounts(o, s)
    ensures Accounts(o, Next(o, s, a))
  {
    var t := Next(o, s, a);
    StepMoves(o, s, a);
    if Silent(o, s, t) {
      AccountsSilent(o, s, t);
    } else {
      AccountsMove(o, s, t, t.log[|t.log| - 1]);
    }
  }

  lemma AccountsSilent(o: Order, s: State, t: State)
    requires Silent(o, s, t) && Accounts(o, s)
    ensures Accounts(o, t)
  {
    WakesFollowSilent(o, s, t);
  }

  lemma AccountsMove(o: Order, s: State, t: State, e: Event)
    requires Move(o, s, t, e) && Accounts(o, s)
    ensures Accounts(o, t)
  {
    AwakeStep(s.log, e);
    WakesFollowMove(o, s, t, e);
    if o.ExecuteThenClear? { WindowMove(s, t, e); } else { ClearedFirstMove(s, t, e); }
  }

  lemma {:induction false} RunAccounts(o: Order, n: nat, sched: seq<Action>)
    ensures Accounts(o, Run(o, Init(n), sched))
  {
    if sched != [] {
      var before := sched[..|sched| - 1];
      RunAccounts(o, n, before);
      RunKeepsInv(o, n, before);
      AccountsStep(o, Run(o, Init(n), before), sched[|sched| - 1]);
    }
  }

  // ---------------------------------------------------------------- the accounting theorems

  /** The receiver is outside its trap and no sender stands between its store and its wake. */
  predicate Quiet(s: State) {
    s.rx.Outside? && forall i :: 0 <= i < |s.tx| ==> !s.tx[i].Releasing? && !s.tx[i].Waking?
  }

  /** Bits wait in the word and no interrupt is pending. */
  predicate Stranded(s: State) { s.word != {} && !s.msip }

  /** A nonempty post whose store and wake both fell between the last unlock and the last `msip` clear. */
  predicate Absorbed(log: seq<Event>, k: int, w: int) {
    && Last(Freeing, log) < k < w < Last(MsipClearing, log)
    && log[k].Stored? && log[k].flag != {}
    && log[w] == Woke(log[k].sender, log[k].flag)
  }

  lemma PendingWasAbsorbed(s: State, k: int)
    requires Accounts(ExecuteThenClear, s) && Quiet(s) && !s.msip
    requires Last(Collecting, s.log) < k < |s.log| && s.log[k].Stored? && s.log[k].flag != {}
    ensures exists w :: Absorbed(s.log, k, w)
  {
    AwakeIff(s.log);
    assert Settled(s.log, k);
    var w :| k < w < |s.log| && s.log[w] == Woke(s.log[k].sender, s.log[k].flag);
    assert s.log[w] != MsipCleared;
    assert Absorbed(s.log, k, w);
  }

  /** In a quiet stranded state every pending store was woken inside that window. */
  lemma StrandedPostsWereAbsorbed(n: nat, sched: seq<Action>, k: int)
    requires Quiet(Run(ExecuteThenClear, Init(n), sched)) && !Run(ExecuteThenClear, Init(n), sched).msip
    requires Last(Collecting, Run(ExecuteThenClear, Init(n), sched).log) < k < |Run(ExecuteThenClear, Init(n), sched).log|
    requires Run(ExecuteThenClear, Init(n), sched).log[k].Stored? && Run(ExecuteThenClear, Init(n), sched).log[k].flag != {}
    ensures exists w :: Absorbed(Run(ExecuteThenClear, Init(n), sched).log, k, w)
  {
    RunAccounts(ExecuteThenClear, n, sched);
    PendingWasAbsorbed(Run(ExecuteThenClear, Init(n), sched), k);
  }

  /** The firmware's order strands bits exactly when a wake was absorbed and none came since. */
  lemma StrandedIffAbsorbed(n: nat, sched: seq<Action>)
    requires Quiet(Run(ExecuteThenClear, Init(n), sched))
    ensures var s := Run(ExecuteThenClear, Init(n), sched);
            Stranded(s) <==>
            && (exists k, w :: Absorbed(s.log, k, w))
            && (forall v :: Last(MsipClearing, s.log) < v < |s.log| ==> !Wakes(s.log[v]))
  {
    RunAccounts(ExecuteThenClear, n, sched);
    RunKeepsInv(ExecuteThenClear, n, sched);
    var s := Run(ExecuteThenClear, Init(n), sched);
    AwakeIff(s.log);
    if Stranded(s) {
      var b :| b in s.word;
      PostedSinceIff(s.log, b);
      var k :| Last(Collecting, s.log) < k < |s.log| && s.log[k].Stored? && b in s.log[k].flag;
      StrandedPostsWereAbsorbed(n, sched, k);
    }
    if k, w :| Absorbed(s.log, k, w) {
      var b :| b in s.log[k].flag;
      PostedSinceIff(s.log, b);
      assert Last(Collecting, s.log) < k;
    }
  }

  /** With `msip` cleared first the stranded state is unreachable. */
  lemma ClearFirstNeverStrands(n: nat, sched: seq<Action>)
    requires Quiet(Run(ClearThenExecute, Init(n), sched))
    ensures !Stranded(Run(ClearThenExecute, Init(n), sched))
  {
    RunAccounts(ClearThenExecute, n, sched);
    RunKeepsInv(ClearThenExecute, n, sched);
    var s := Run(ClearThenExecute, Init(n), sched);
    AwakeIff(s.log);
    if s.word != {} {
      var b :| b in s.word;
      PostedSinceIff(s.log, b);
      var k :| Last(Collecting, s.log) < k < |s.log| && s.log[k].Stored? && b in s.log[k].flag;
      assert Settled(s.log, k);
    }
  }

  // ---------------------------------------------------------------- the fate of stranded bits

  /** From `s` on, the word keeps `s.word` until the first collection, which takes it whole. */
  ghost predicate Keeps(s: State, t: State) {
    && s.log <= t.log
    && ((exists m :: FirstCollection(s.log, t.log, m) && s.word <= t.log[m].copy)
        || ((forall m :: |s.log| <= m < |t.log| ==> !t.log[m].Collected?) && s.word <= t.word))
  }

  predicate FirstCollection(from: seq<Event>, log: seq<Event>, m: int) {
    |from| <= m < |log| && log[m].Collected? && forall j :: |from| <= j < m ==> !log[j].Collected?
  }

  lemma KeepsMove(s: State, t: State, u: State, e: Event)
    requires Keeps(s, t) && Effect(t, u, e)
    ensures Keeps(s, u)
  {
    if m :| FirstCollection(s.log, t.log, m) && s.word <= t.log[m].copy {
      assert u.log[m] == t.log[m];
      assert FirstCollection(s.log, u.log, m);
    } else if e.Collected? {
      assert FirstCollection(s.log, u.log, |t.log|) && s.word <= u.log[|t.log|].copy;
    }
  }

  lemma {:induction false} RunKeeps(o: Order, s: State, more: seq<Action>)
    requires Inv(s)
    ensures Inv(Run(o, s, more)) && Keeps(s, Run(o, s, more))
  {
    if more != [] {
      var before, a := more[..|more| - 1], more[|more| - 1];
      RunKeeps(o, s, before);
      var t := Run(o, s, before);
      LockStep(o, t, a);
      DataStep(o, t, a);
      StepEffect(o, t, a);
      var u := Next(o, t, a);
      if u.log != t.log { KeepsMove(s, t, u, u.log[|u.log| - 1]); }
    }
  }

  /** Bits in the word stay there until the next collection on that hart, which takes all of them. */
  lemma NextTrapDelivers(o: Order, n: nat, sched: seq<Action>, more: seq<Action>)
    ensures Keeps(Run(o, Init(n), sched), Run(o, Run(o, Init(n), sched), more))
  {
    RunKeepsInv(o, n, sched);
    RunKeeps(o, Run(o, Init(n), sched), more);
  }

  /** Stranded bits wait for an unrelated post or wake: without one nothing ever moves again. */
  lemma {:induction false} StrandedStays(o: Order, s: State, more: seq<Action>)
    requires s.rx.Outside? && !s.msip && forall i :: 0 <= i < |s.tx| ==> s.tx[i].Ready?
    requires forall a :: a in more ==> !a.Post? && !a.Wake?
    ensures Run(o, s, more) == s
  {
    if more != [] {
      assert more[|more| - 1] in more;
      StrandedStays(o, s, more[..|more| - 1]);
    }
  }

  lemma RunSnoc(o: Order, s: State, sched: seq<Action>, a: Action)
    ensures Run(o, s, sched + [a]) == Next(o, Run(o, s, sched), a)
  {
  }

  /** `t` is reachable from power-up with one sender, in the firmware's order. */
  ghost predicate Reachable(t: State) {
    exists sched :: Run(ExecuteThenClear, Init(1), sched) == t
  }

  lemma ReachNext(s: State, a: Action)
    requires Reachable(s)
    ensures Reachable(Next(ExecuteThenClear, s, a))
  {
    var sched :| Run(ExecuteThenClear, Init(1), sched) == s;
    RunSnoc(ExecuteThenClear, Init(1), sched, a);
  }

  lemma ReachStore(w: Word, msip: bool, rx: Receiver, log: seq<Event>, f: Word)
    requires Reachable(State(false, w, msip, [Ready], rx, log))
    ensures Reachable(State(true, w + f, msip, [Releasing(f)], rx, log + [Stored(0, f)]))
  {
    ReachNext(State(false, w, msip, [Ready], rx, log), Post(0, f));
    ReachNext(State(false, w, msip, [TakingLock(f)], rx, log), Send(0));
    ReachNext(State(true, w, msip, [Loading(f)], rx, log), Send(0));
    ReachNext(State(true, w, msip, [Storing(f, w)], rx, log), Send(0));
  }

  /** A single sender posts while the mutex is free. */
  lemma ReachPost(w: Word, msip: bool, rx: Receiver, log: seq<Event>, f: Word)
    requires Reachable(State(false, w, msip, [Ready], rx, log))
    ensures Reachable(State(false, w + f, true, [Ready], rx, log + [Stored(0, f)] + [Woke(0, f)]))
  {
    ReachStore(w, msip, rx, log, f);
    ReachNext(State(true, w + f, msip, [Releasing(f)], rx, log + [Stored(0, f)]), Send(0));
    ReachNext(State(false, w + f, msip, [Waking(f)], rx, log + [Stored(0, f)]), Send(0));
  }

  /** The trap runs up to the call of its handler. */
  lemma ReachDispatch(w: Word, log: seq<Event>)
    requires Reachable(State(false, w, true, [Ready], Outside, log))
    ensures Reachable(State(false, {}, true, [Ready], Dispatching(w), log + [Collected(w)] + [Unlocked]))
  {
    ReachNext(State(false, w, true, [Ready], Outside, log), Trap);
    ReachNext(State(false, w, true, [Ready], AcquiringLock, log), Receive);
    ReachNext(State(true, w, true, [Ready], Copying, log), Receive);
    ReachNext(State(true, w, true, [Ready], Clearing(w), log), Receive);
    ReachNext(State(true, {}, true, [Ready], Unlocking(w), log + [Collected(w)]), Receive);
  }

  /** A second post during the handler is stranded: the firmware can lose the wake-up. */
  lemma StrandedReachable(f: Word)
    requires f != {}
    ensures exists sched :: var s := Run(ExecuteThenClear, Init(1), sched); Quiet(s) && Stranded(s) && s.word == f
  {
    var log := [Stored(0, f)] + [Woke(0, f)];
    assert Init(1) == State(false, {}, false, [Ready], Outside, []) && Run(ExecuteThenClear, Init(1), []) == Init(1);
    ReachPost({}, false, Outside, [], f);
    assert [] + [Stored(0, f)] + [Woke(0, f)] == log && {} + f == f;
    ReachDispatch(f, log);
    var log' := log + [Collected(f)] + [Unlocked];
    ReachPost({}, true, Dispatching(f), log', f);
    var log'' := log' + [Stored(0, f)] + [Woke(0, f)];
    ReachNext(State(false, f, true, [Ready], Dispatching(f), log''), Receive);
    ReachNext(State(false, f, true, [Ready], ClearingMsip, log'' + [Dispatched(f)]), Receive);
    var t := State(false, f, false, [Ready], Outside, log'' + [Dispatched(f)] + [MsipCleared]);
    assert Reachable(t);
  }
}
