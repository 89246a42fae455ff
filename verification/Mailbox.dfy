/**
 * The inter-hart mailbox of Source/dev/irq.c: any number of senders post bits into one flag word
 * under a hardware mutex and then raise the target hart's `msip`; the target's software-interrupt
 * trap collects the word.  Each step of the transition system is one access to a shared register.
 *
 * Hardware assumption: reading a mutex register returns its old value and sets it; writing 0 frees it.
 */
module Mailbox {

  import opened Words

  /** Where a sender stands in `enx_wake_message_to_cpuN`; each constructor names the next access. */
  datatype Sender =
    | Ready
    | TakingLock(flag: Word)
    | Loading(flag: Word)
    | Storing(flag: Word, seen: Word)
    | Releasing(flag: Word)
    | Waking(flag: Word)

  /** Where the target hart stands in its software-interrupt trap. */
  datatype Receiver =
    | Outside
    | AcquiringLock
    | Copying
    | Clearing(copy: Word)
    | Unlocking(copy: Word)
    | Dispatching(copy: Word)
    | ClearingMsip

  /** The order of the two halves of the trap; the firmware executes the handler first. */
  datatype Order = ExecuteThenClear | ClearThenExecute

  /** What a run leaves behind, in the order in which it happened. */
  datatype Event =
    | Stored(sender: nat, flag: Word)
    | Woke(sender: nat, flag: Word)
    | Nudged
    | Collected(copy: Word)
    | Unlocked
    | Dispatched(copy: Word)
    | MsipCleared

  datatype State = State(mutex: bool, word: Word, msip: bool, tx: seq<Sender>, rx: Receiver, log: seq<Event>)

  /** One scheduling decision: a sender starts a post, someone wakes the hart without one, or an agent performs its next access. */
  datatype Action = Post(i: nat, flag: Word) | Wake | Send(i: nat) | Trap | Receive

  function Init(senders: nat): State {
    State(false, {}, false, seq(senders, _ => Ready), Outside, [])
  }

  function SendStep(s: State, i: nat): State
    requires i < |s.tx|
  {
    match s.tx[i]
    case Ready => s
    case TakingLock(f) => if s.mutex then s else s.(mutex := true, tx := s.tx[i := Loading(f)])
    case Loading(f) => s.(tx := s.tx[i := Storing(f, s.word)])
    case Storing(f, seen) => s.(word := seen + f, tx := s.tx[i := Releasing(f)], log := s.log + [Stored(i, f)])
    case Releasing(f) => s.(mutex := false, tx := s.tx[i := Waking(f)])
    case Waking(f) => s.(msip := true, tx := s.tx[i := Ready], log := s.log + [Woke(i, f)])
  }

  function ReceiveStep(o: Order, s: State): State {
    match s.rx
    case Outside => s
    case AcquiringLock => if s.mutex then s else s.(mutex := true, rx := Copying)
    case Copying => s.(rx := Clearing(s.word))
    case Clearing(c) => s.(word := {}, rx := Unlocking(c), log := s.log + [Collected(c)])
    case Unlocking(c) => s.(mutex := false, rx := Dispatching(c), log := s.log + [Unlocked])
    case Dispatching(c) =>
      s.(rx := if o.ExecuteThenClear? then ClearingMsip else Outside, log := s.log + [Dispatched(c)])
    case ClearingMsip =>
      s.(msip := false, rx := if o.ExecuteThenClear? then Outside else AcquiringLock, log := s.log + [MsipCleared])
  }

  /** A disabled action leaves the state alone. */
  function Next(o: Order, s: State, a: Action): State {
    match a
    case Post(i, f) => if i < |s.tx| && s.tx[i].Ready? then s.(tx := s.tx[i := TakingLock(f)]) else s
    case Wake => s.(msip := true, log := s.log + [Nudged])
    case Send(i) => if i < |s.tx| then SendStep(s, i) else s
    case Trap =>
      if s.rx.Outside? && s.msip
      then s.(rx := if o.ExecuteThenClear? then AcquiringLock else ClearingMsip)
      else s
    case Receive => ReceiveStep(o, s)
  }

  function Run(o: Order, s: State, sched: seq<Action>): State {
    if sched == [] then s else Next(o, Run(o, s, sched[..|sched| - 1]), sched[|sched| - 1])
  }

  // ---------------------------------------------------------------- reading the log

  /** The bits stored since the receiver last cleared the word. */
  function PostedSince(log: seq<Event>): Word {
    if log == [] then {}
    else
      var before := log[..|log| - 1];
      var e := log[|log| - 1];
      if e.Stored? then PostedSince(before) + e.flag
      else if e.Collected? then {}
      else PostedSince(before)
  }

  /** Every bit ever stored. */
  function AllPosted(log: seq<Event>): Word {
    if log == [] then {}
    else AllPosted(log[..|log| - 1]) + (if log[|log| - 1].Stored? then log[|log| - 1].flag else {})
  }

  /** The copies handed to the handler, in order. */
  function Handled(log: seq<Event>): seq<Word> {
    if log == [] then []
    else Handled(log[..|log| - 1]) + (if log[|log| - 1].Dispatched? then [log[|log| - 1].copy] else [])
  }

  /** The copies taken out of the word, in order. */
  function Taken(log: seq<Event>): seq<Word> {
    if log == [] then []
    else Taken(log[..|log| - 1]) + (if log[|log| - 1].Collected? then [log[|log| - 1].copy] else [])
  }

  function Union(ws: seq<Word>): Word {
    if ws == [] then {} else Union(ws[..|ws| - 1]) + ws[|ws| - 1]
  }

  /** The three landmarks a trap leaves in the log. */
  datatype Landmark = Collecting | Freeing | MsipClearing

  predicate Marks(m: Landmark, e: Event) {
    match m
    case Collecting => e.Collected?
    case Freeing => e.Unlocked?
    case MsipClearing => e.MsipCleared?
  }

  /** Position of the last landmark of a kind, or -1. */
  function Last(m: Landmark, log: seq<Event>): (p: int)
    ensures -1 <= p < |log|
    ensures p >= 0 ==> Marks(m, log[p])
    ensures forall k :: p < k < |log| ==> !Marks(m, log[k])
  {
    if log == [] then -1
    else if Marks(m, log[|log| - 1]) then |log| - 1
    else Last(m, log[..|log| - 1])
  }

  // ---------------------------------------------------------------- mutual exclusion

  datatype Agent = Tx(i: nat) | Rx

  /** An agent is between its lock and its unlock. */
  predicate Holds(s: State, a: Agent) {
    match a
    case Tx(i) => i < |s.tx| && (s.tx[i].Loading? || s.tx[i].Storing? || s.tx[i].Releasing?)
    case Rx => s.rx.Copying? || s.rx.Clearing? || s.rx.Unlocking?
  }

  ghost predicate LockInv(s: State) {
    && (s.mutex <==> exists a :: Holds(s, a))
    && (forall a, b :: Holds(s, a) && Holds(s, b) ==> a == b)
  }

  /** What the lock protects: a loaded value is still current when it is used. */
  ghost predicate LoadedInv(s: State) {
    && (forall i :: 0 <= i < |s.tx| && s.tx[i].Storing? ==> s.tx[i].seen == s.word)
    && (s.rx.Clearing? ==> s.rx.copy == s.word)
  }

  /** Every collected copy is exactly what had been posted since the collection before it. */
  ghost predicate CopiesExact(log: seq<Event>) {
    log == [] ||
    var before, e := log[..|log| - 1], log[|log| - 1];
    CopiesExact(before) && (e.Collected? ==> e.copy == PostedSince(before))
  }

  ghost predicate DataInv(s: State) {
    LoadedInv(s) && s.word == PostedSince(s.log) && CopiesExact(s.log)
  }

  lemma LockSend(s: State, i: nat)
    requires LockInv(s) && i < |s.tx|
    ensures LockInv(SendStep(s, i))
  {
    var t := SendStep(s, i);
    assert forall b :: b != Tx(i) ==> (Holds(t, b) <==> Holds(s, b));
    if s.mutex == t.mutex {
      assert Holds(t, Tx(i)) <==> Holds(s, Tx(i));
      assert forall b :: Holds(t, b) <==> Holds(s, b);
    } else {
      assert Holds(t, Tx(i)) <==> t.mutex;
      assert Holds(s, Tx(i)) <==> s.mutex;
    }
  }

  lemma LockReceive(o: Order, s: State)
    requires LockInv(s)
    ensures LockInv(ReceiveStep(o, s))
  {
    var t := ReceiveStep(o, s);
    assert forall b :: b != Rx ==> (Holds(t, b) <==> Holds(s, b));
    if s.mutex == t.mutex {
      assert Holds(t, Rx) <==> Holds(s, Rx);
      assert forall b :: Holds(t, b) <==> Holds(s, b);
    } else {
      assert Holds(t, Rx) <==> t.mutex;
      assert Holds(s, Rx) <==> s.mutex;
    }
  }

  lemma LockStep(o: Order, s: State, a: Action)
    requires LockInv(s)
    ensures LockInv(Next(o, s, a))
  {
    match a
    case Send(i) => if i < |s.tx| { LockSend(s, i); }
    case Receive => LockReceive(o, s);
    case _ => assert forall b :: Holds(Next(o, s, a), b) <==> Holds(s, b);
  }

  lemma LoadedSend(s: State, i: nat)
    requires LockInv(s) && LoadedInv(s) && i < |s.tx|
    ensures LoadedInv(SendStep(s, i))
  {
    if s.tx[i].Storing? {
      assert Holds(s, Tx(i)) && !Holds(s, Rx);
      forall j | 0 <= j < |s.tx| && j != i ensures !s.tx[j].Storing? { assert !Holds(s, Tx(j)); }
    }
  }

  lemma LoadedReceive(o: Order, s: State)
    requires LockInv(s) && LoadedInv(s)
    ensures LoadedInv(ReceiveStep(o, s))
  {
    if s.rx.Clearing? {
      assert Holds(s, Rx);
      forall j | 0 <= j < |s.tx| ensures !s.tx[j].Storing? { assert !Holds(s, Tx(j)); }
    }
  }

  lemma PostedStep(log: seq<Event>, e: Event)
    ensures PostedSince(log + [e]) ==
            if e.Stored? then PostedSince(log) + e.flag else if e.Collected? then {} else PostedSince(log)
  {
  }

  lemma CopiesStep(log: seq<Event>, e: Event)
    requires CopiesExact(log) && (e.Collected? ==> e.copy == PostedSince(log))
    ensures CopiesExact(log + [e])
  {
  }

  lemma LoadedStep(o: Order, s: State, a: Action)
    requires LockInv(s) && LoadedInv(s)
    ensures LoadedInv(Next(o, s, a))
  {
    match a
    case Send(i) => if i < |s.tx| { LoadedSend(s, i); }
    case Receive => LoadedReceive(o, s);
    case _ =>
  }

  /** The copy the trap still has to hand to the handler. */
  function InFlight(r: Receiver): seq<Word> {
    if r.Unlocking? || r.Dispatching? then [r.copy] else []
  }

  /** What one step does to the word and to the copy in flight, by the event it logs. */
  ghost predicate Effect(s: State, t: State, e: Event) {
    && t.log == s.log + [e]
    && t.word == (if e.Stored? then s.word + e.flag else if e.Collected? then {} else s.word)
    && (e.Collected? ==> e.copy == s.word && InFlight(s.rx) == [] && InFlight(t.rx) == [e.copy])
    && (e.Dispatched? ==> InFlight(s.rx) == [e.copy] && InFlight(t.rx) == [])
    && (!e.Collected? && !e.Dispatched? ==> InFlight(t.rx) == InFlight(s.rx))
  }

  /** A step logs nothing and keeps the word and the copy in flight, or has the effect of its event. */
  lemma StepEffect(o: Order, s: State, a: Action)
    requires LoadedInv(s)
    ensures var t := Next(o, s, a);
            || (t.log == s.log && t.word == s.word && InFlight(t.rx) == InFlight(s.rx))
            || (t.log != [] && Effect(s, t, t.log[|t.log| - 1]))
  {
    var t := Next(o, s, a);
    match a {
      case Send(i) =>
        if i < |s.tx| && s.tx[i].Storing? { assert Effect(s, t, Stored(i, s.tx[i].flag)); }
        else if i < |s.tx| && s.tx[i].Waking? { assert Effect(s, t, Woke(i, s.tx[i].flag)); }
      case Wake => assert Effect(s, t, Nudged);
      case Receive =>
        if s.rx.Clearing? { assert Effect(s, t, Collected(s.rx.copy)); }
        else if s.rx.Unlocking? { assert Effect(s, t, Unlocked); }
        else if s.rx.Dispatching? { assert Effect(s, t, Dispatched(s.rx.copy)); }
        else if s.rx.ClearingMsip? { assert Effect(s, t, MsipCleared); }
      case _ =>
    }
  }

  lemma DataStep(o: Order, s: State, a: Action)
    requires LockInv(s) && DataInv(s)
    ensures DataInv(Next(o, s, a))
  {
    var t := Next(o, s, a);
    LoadedStep(o, s, a);
    StepEffect(o, s, a);
    if t.log != s.log {
      PostedStep(s.log, t.log[|t.log| - 1]);
      CopiesStep(s.log, t.log[|t.log| - 1]);
    }
  }

  // ---------------------------------------------------------------- whole runs

  ghost predicate Inv(s: State) { LockInv(s) && DataInv(s) }

  lemma {:induction false} RunKeepsInv(o: Order, n: nat, sched: seq<Action>)
    ensures Inv(Run(o, Init(n), sched))
  {
    if sched == [] {
      assert forall a :: !Holds(Init(n), a);
    } else {
      var before := sched[..|sched| - 1];
      RunKeepsInv(o, n, before);
      LockStep(o, Run(o, Init(n), before), sched[|sched| - 1]);
      DataStep(o, Run(o, Init(n), before), sched[|sched| - 1]);
    }
  }

  /** In every interleaving at most one agent is between its lock and its unlock. */
  lemma MutualExclusion(o: Order, n: nat, sched: seq<Action>, a: Agent, b: Agent)
    requires Holds(Run(o, Init(n), sched), a) && Holds(Run(o, Init(n), sched), b)
    ensures a == b && Run(o, Init(n), sched).mutex
  {
    RunKeepsInv(o, n, sched);
  }

  /** The bits of `PostedSince` are those of the stores after the last collection, and no others. */
  lemma {:induction false} PostedSinceIff(log: seq<Event>, b: Bit)
    ensures b in PostedSince(log) <==> exists k :: Last(Collecting, log) < k < |log| && log[k].Stored? && b in log[k].flag
  {
    if log != [] {
      var before, e := log[..|log| - 1], log[|log| - 1];
      PostedSinceIff(before, b);
      if b in PostedSince(before) && !e.Collected? {
        var k :| Last(Collecting, before) < k < |before| && before[k].Stored? && b in before[k].flag;
        assert log[k] == before[k];
      }
      if k :| Last(Collecting, log) < k < |log| && log[k].Stored? && b in log[k].flag {
        assert k < |before| ==> before[k] == log[k];
      }
    }
  }

  lemma {:induction false} CopyAt(log: seq<Event>, m: nat)
    requires CopiesExact(log) && m < |log| && log[m].Collected?
    ensures log[m].copy == PostedSince(log[..m])
  {
    var before := log[..|log| - 1];
    if m < |before| {
      CopyAt(before, m);
      assert before[..m] == log[..m];
    }
  }

  /** The flag word always holds exactly the bits stored since the last collection. */
  lemma WordIsWhatWasPosted(o: Order, n: nat, sched: seq<Action>, b: Bit)
    ensures var s := Run(o, Init(n), sched);
            b in s.word <==> exists k :: Last(Collecting, s.log) < k < |s.log| && s.log[k].Stored? && b in s.log[k].flag
  {
    RunKeepsInv(o, n, sched);
    PostedSinceIff(Run(o, Init(n), sched).log, b);
  }

  /** A collected copy holds a bit iff some sender stored it after the collection before. */
  lemma CollectedIffPosted(o: Order, n: nat, sched: seq<Action>, m: nat, b: Bit)
    requires m < |Run(o, Init(n), sched).log| && Run(o, Init(n), sched).log[m].Collected?
    ensures var log := Run(o, Init(n), sched).log;
            b in log[m].copy <==>
            exists k :: Last(Collecting, log[..m]) < k < m && log[k].Stored? && b in log[k].flag
  {
    RunKeepsInv(o, n, sched);
    var log := Run(o, Init(n), sched).log;
    CopyAt(log, m);
    PostedSinceIff(log[..m], b);
    if b in log[m].copy {
      var k :| Last(Collecting, log[..m]) < k < m && log[..m][k].Stored? && b in log[..m][k].flag;
      assert log[k] == log[..m][k];
    }
    if k :| Last(Collecting, log[..m]) < k < m && log[k].Stored? && b in log[k].flag {
      assert log[..m][k] == log[k];
    }
  }

  lemma HandledStep(log: seq<Event>, e: Event)
    ensures Handled(log + [e]) == Handled(log) + (if e.Dispatched? then [e.copy] else [])
    ensures Taken(log + [e]) == Taken(log) + (if e.Collected? then [e.copy] else [])
    ensures AllPosted(log + [e]) == AllPosted(log) + (if e.Stored? then e.flag else {})
  {
  }

  lemma UnionStep(ws: seq<Word>, w: Word)
    ensures Union(ws + [w]) == Union(ws) + w
  {
  }

  lemma LedgerStep(s: State, t: State, e: Event)
    requires Effect(s, t, e) && Ledger(s)
    ensures Ledger(t)
  {
    HandledStep(s.log, e);
    if e.Collected? {
      UnionStep(Taken(s.log), e.copy);
    } else {
      assert Taken(t.log) == Taken(s.log);
    }
  }

  ghost predicate Ledger(s: State) {
    && Taken(s.log) == Handled(s.log) + InFlight(s.rx)
    && AllPosted(s.log) == Union(Taken(s.log)) + s.word
  }

  /** Each collected copy reaches the handler exactly once, in order; every posted bit is collected or still pending. */
  lemma {:induction false} RunKeepsLedger(o: Order, n: nat, sched: seq<Action>)
    ensures Ledger(Run(o, Init(n), sched))
  {
    if sched != [] {
      var before := sched[..|sched| - 1];
      RunKeepsLedger(o, n, before);
      RunKeepsInv(o, n, before);
      var s, t := Run(o, Init(n), before), Run(o, Init(n), sched);
      StepEffect(o, s, sched[|sched| - 1]);
      if t.log != s.log { LedgerStep(s, t, t.log[|t.log| - 1]); }
    }
  }

  lemma LedgerSplits(s: State)
    requires Ledger(s)
    ensures AllPosted(s.log) == Union(Handled(s.log)) + Union(InFlight(s.rx)) + s.word
  {
    var h := Handled(s.log);
    if InFlight(s.rx) == [] {
      assert h + [] == h;
      assert Union(InFlight(s.rx)) == {};
    } else {
      UnionStep(h, s.rx.copy);
      UnionStep([], s.rx.copy);
      assert [] + [s.rx.copy] == InFlight(s.rx);
    }
  }

  /** Conservation: what was posted is what the handler saw, plus the copy on its way, plus the word. */
  lemma NothingLostOrInvented(o: Order, n: nat, sched: seq<Action>)
    ensures var s := Run(o, Init(n), sched);
            AllPosted(s.log) == Union(Handled(s.log)) + Union(InFlight(s.rx)) + s.word
  {
    RunKeepsLedger(o, n, sched);
    LedgerSplits(Run(o, Init(n), sched));
  }

  // ---------------------------------------------------------------- what was asked for

  /** The action is taken up: the sender exists and is not in the middle of another post. */
  predicate TakenUp(s: State, a: Action, i: nat) { a.Post? && a.i == i && i < |s.tx| && s.tx[i].Ready? }

  /** The flags that sender i was asked to post, in order. */
  function Asked(o: Order, n: nat, sched: seq<Action>, i: nat): seq<Word> {
    if sched == [] then []
    else
      var before, a := sched[..|sched| - 1], sched[|sched| - 1];
      Asked(o, n, before, i) + (if TakenUp(Run(o, Init(n), before), a, i) then [a.flag] else [])
  }

  /** The flags that sender i has stored, in order. */
  function StoredBy(log: seq<Event>, i: nat): seq<Word> {
    if log == [] then []
    else
      var e := log[|log| - 1];
      StoredBy(log[..|log| - 1], i) + (if e.Stored? && e.sender == i then [e.flag] else [])
  }

  /** The flag a sender has been asked to post and has not stored yet. */
  function Unstored(x: Sender): seq<Word> {
    if x.TakingLock? || x.Loading? || x.Storing? then [x.flag] else []
  }

  lemma StoredByStep(log: seq<Event>, e: Event, i: nat)
    ensures StoredBy(log + [e], i) == StoredBy(log, i) + (if e.Stored? && e.sender == i then [e.flag] else [])
  {
    assert (log + [e])[..|log|] == log;
  }

  /** What the senders still have to store is the same. */
  ghost predicate SameToStore(s: State, t: State) {
    |t.tx| == |s.tx| && forall i :: 0 <= i < |s.tx| ==> Unstored(t.tx[i]) == Unstored(s.tx[i])
  }

  /** Nothing was logged, or something other than a store. */
  ghost predicate LogsNoStore(s: State, t: State) {
    t.log == s.log || (t.log != [] && t.log == s.log + [t.log[|t.log| - 1]] && !t.log[|t.log| - 1].Stored?)
  }

  /** Sender j stored its flag f. */
  ghost predicate Stores(s: State, t: State, j: nat, f: Word) {
    && t.log == s.log + [Stored(j, f)] && |t.tx| == |s.tx| && j < |s.tx|
    && Unstored(s.tx[j]) == [f] && Unstored(t.tx[j]) == []
    && forall i :: 0 <= i < |s.tx| && i != j ==> t.tx[i] == s.tx[i]
  }

  lemma SendStores(s: State, j: nat)
    requires j < |s.tx|
    ensures var t := SendStep(s, j);
            if s.tx[j].Storing? then Stores(s, t, j, s.tx[j].flag) else SameToStore(s, t) && LogsNoStore(s, t)
  {
    var t := SendStep(s, j);
    if s.tx[j].Waking? { assert t.log[|t.log| - 1] == Woke(j, s.tx[j].flag); }
  }

  lemma ReceiveStoresNothing(o: Order, s: State)
    ensures SameToStore(s, ReceiveStep(o, s)) && LogsNoStore(s, ReceiveStep(o, s))
  {
    var t := ReceiveStep(o, s);
    match s.rx
    case Clearing(c) => assert t.log[|t.log| - 1] == Collected(c);
    case Unlocking(_) => assert t.log[|t.log| - 1] == Unlocked;
    case Dispatching(c) => assert t.log[|t.log| - 1] == Dispatched(c);
    case ClearingMsip => assert t.log[|t.log| - 1] == MsipCleared;
    case _ =>
  }

  lemma OtherStoresNothing(o: Order, s: State, a: Action)
    requires a.Wake? || a.Trap?
    ensures SameToStore(s, Next(o, s, a)) && LogsNoStore(s, Next(o, s, a))
  {
    if a.Wake? { assert Next(o, s, a).log[|s.log|] == Nudged; }
  }

  lemma NoStoreKeeps(s: State, t: State, i: nat)
    requires SameToStore(s, t) && LogsNoStore(s, t) && i < |s.tx|
    ensures |t.tx| == |s.tx| && StoredBy(t.log, i) + Unstored(t.tx[i]) == StoredBy(s.log, i) + Unstored(s.tx[i])
  {
    if t.log != s.log { StoredByStep(s.log, t.log[|t.log| - 1], i); }
  }

  lemma StoreKeeps(s: State, t: State, j: nat, f: Word, i: nat)
    requires Stores(s, t, j, f) && i < |s.tx|
    ensures |t.tx| == |s.tx| && StoredBy(t.log, i) + Unstored(t.tx[i]) == StoredBy(s.log, i) + Unstored(s.tx[i])
  {
    StoredByStep(s.log, Stored(j, f), i);
  }

  /** A step moves a sender's flag from asked to stored, and no flag of another sender. */
  lemma AskedStep(o: Order, s: State, a: Action, i: nat)
    requires i < |s.tx|
    ensures var t := Next(o, s, a);
            |t.tx| == |s.tx|
            && StoredBy(t.log, i) + Unstored(t.tx[i])
               == StoredBy(s.log, i) + Unstored(s.tx[i]) + (if TakenUp(s, a, i) then [a.flag] else [])
  {
    match a
    case Post(j, f) =>
    case Send(j) =>
      if j < |s.tx| {
        SendStores(s, j);
        if s.tx[j].Storing? { StoreKeeps(s, SendStep(s, j), j, s.tx[j].flag, i); } else { NoStoreKeeps(s, SendStep(s, j), i); }
      }
    case Receive =>
      ReceiveStoresNothing(o, s);
      NoStoreKeeps(s, ReceiveStep(o, s), i);
    case _ =>
      OtherStoresNothing(o, s, a);
      NoStoreKeeps(s, Next(o, s, a), i);
  }

  /** Every sender stores exactly the flags it was asked to post, in order; the last may still be on its way. */
  lemma {:induction false} AskedIsStored(o: Order, n: nat, sched: seq<Action>, i: nat)
    requires i < n
    ensures var s := Run(o, Init(n), sched);
            |s.tx| == n && Asked(o, n, sched, i) == StoredBy(s.log, i) + Unstored(s.tx[i])
  {
    if sched != [] {
      var before := sched[..|sched| - 1];
      AskedIsStored(o, n, before, i);
      AskedStep(o, Run(o, Init(n), before), sched[|sched| - 1], i);
    }
  }

  /** Some sender was asked to post the bit. */
  predicate WasAsked(o: Order, n: nat, sched: seq<Action>, b: Bit) {
    sched != [] &&
    var before, a := sched[..|sched| - 1], sched[|sched| - 1];
    WasAsked(o, n, before, b) || (a.Post? && TakenUp(Run(o, Init(n), before), a, a.i) && b in a.flag)
  }

  /** Sender i has been asked to post the bit and has not stored it yet. */
  predicate OnItsWay(s: State, i: nat, b: Bit) {
    i < |s.tx| && Unstored(s.tx[i]) != [] && b in Unstored(s.tx[i])[0]
  }

  ghost predicate SomeOnItsWay(s: State, b: Bit) { exists i: nat :: OnItsWay(s, i, b) }

  ghost predicate Known(s: State, b: Bit) { b in AllPosted(s.log) || SomeOnItsWay(s, b) }

  lemma NoStoreKnown(s: State, t: State, b: Bit)
    requires SameToStore(s, t) && LogsNoStore(s, t)
    ensures Known(t, b) <==> Known(s, b)
  {
    if t.log != s.log { HandledStep(s.log, t.log[|t.log| - 1]); }
    assert forall i: nat :: OnItsWay(t, i, b) <==> OnItsWay(s, i, b);
  }

  lemma StoreKnown(s: State, t: State, j: nat, f: Word, b: Bit)
    requires Stores(s, t, j, f)
    ensures Known(t, b) <==> Known(s, b)
  {
    HandledStep(s.log, Stored(j, f));
    assert forall i: nat :: i != j ==> (OnItsWay(t, i, b) <==> OnItsWay(s, i, b));
    assert !OnItsWay(t, j, b) && (OnItsWay(s, j, b) <==> b in f);
  }

  lemma KnownPost(o: Order, s: State, j: nat, f: Word, b: Bit)
    ensures Known(Next(o, s, Post(j, f)), b) <==> Known(s, b) || (TakenUp(s, Post(j, f), j) && b in f)
  {
    var t := Next(o, s, Post(j, f));
    if TakenUp(s, Post(j, f), j) {
      assert forall i: nat :: i != j ==> (OnItsWay(t, i, b) <==> OnItsWay(s, i, b));
      assert !OnItsWay(s, j, b) && (OnItsWay(t, j, b) <==> b in f);
    }
  }

  lemma KnownStep(o: Order, s: State, a: Action, b: Bit)
    ensures Known(Next(o, s, a), b) <==> Known(s, b) || (a.Post? && TakenUp(s, a, a.i) && b in a.flag)
  {
    match a
    case Post(j, f) => KnownPost(o, s, j, f, b);
    case Send(j) =>
      if j < |s.tx| {
        SendStores(s, j);
        if s.tx[j].Storing? { StoreKnown(s, SendStep(s, j), j, s.tx[j].flag, b); } else { NoStoreKnown(s, SendStep(s, j), b); }
      }
    case Receive =>
      ReceiveStoresNothing(o, s);
      NoStoreKnown(s, ReceiveStep(o, s), b);
    case _ =>
      OtherStoresNothing(o, s, a);
      NoStoreKnown(s, Next(o, s, a), b);
  }

  lemma {:induction false} AskedIsKnown(o: Order, n: nat, sched: seq<Action>, b: Bit)
    ensures WasAsked(o, n, sched, b) <==> Known(Run(o, Init(n), sched), b)
  {
    if sched == [] {
      assert forall i: nat :: !OnItsWay(Init(n), i, b);
    } else {
      var before := sched[..|sched| - 1];
      AskedIsKnown(o, n, before, b);
      KnownStep(o, Run(o, Init(n), before), sched[|sched| - 1], b);
    }
  }

  /** Conservation of what was asked for: a bit was to be posted iff it was handled, is in flight, in the word, or with a sender. */
  lemma EveryPostAccountedFor(o: Order, n: nat, sched: seq<Action>, b: Bit)
    ensures var s := Run(o, Init(n), sched);
            WasAsked(o, n, sched, b) <==>
            b in Union(Handled(s.log)) || b in Union(InFlight(s.rx)) || b in s.word || SomeOnItsWay(s, b)
  {
    AskedIsKnown(o, n, sched, b);
    NothingLostOrInvented(o, n, sched);
  }

  /** The bare wakes in the log are the wakes that were called. */
  function Nudges(log: seq<Event>): nat {
    if log == [] then 0 else Nudges(log[..|log| - 1]) + (if log[|log| - 1].Nudged? then 1 else 0)
  }

  function WakesCalled(sched: seq<Action>): nat {
    if sched == [] then 0 else WakesCalled(sched[..|sched| - 1]) + (if sched[|sched| - 1].Wake? then 1 else 0)
  }

  lemma NudgesStep(o: Order, s: State, a: Action)
    requires LoadedInv(s)
    ensures Nudges(Next(o, s, a).log) == Nudges(s.log) + (if a.Wake? then 1 else 0)
  {
    var t := Next(o, s, a);
    StepEffect(o, s, a);
    if t.log != s.log { assert t.log[..|t.log| - 1] == s.log; }
  }

  lemma {:induction false} EveryWakeIsLogged(o: Order, n: nat, sched: seq<Action>)
    ensures Nudges(Run(o, Init(n), sched).log) == WakesCalled(sched)
  {
    if sched != [] {
      var before := sched[..|sched| - 1];
      EveryWakeIsLogged(o, n, before);
      RunKeepsInv(o, n, before);
      NudgesStep(o, Run(o, Init(n), before), sched[|sched| - 1]);
    }
  }

  // ---------------------------------------------------------------- a holder that does not run

  /** Sender i holds the lock, no other sender does, and the trap is spinning on it. */
  predicate HeldBy(s: State, i: nat) {
    && s.mutex && Holds(s, Tx(i)) && s.rx.AcquiringLock?
    && forall j :: 0 <= j < |s.tx| && j != i ==> !Holds(s, Tx(j))
  }

  lemma HeldStep(o: Order, s: State, a: Action, i: nat)
    requires HeldBy(s, i) && a != Send(i)
    ensures var t := Next(o, s, a); HeldBy(t, i) && t.tx[i] == s.tx[i] && t.word == s.word
  {
    match a
    case Send(j) => if j < |s.tx| { assert !Holds(s, Tx(j)); }
    case _ =>
  }

  lemma {:induction false} HeldRun(o: Order, s: State, more: seq<Action>, i: nat)
    requires HeldBy(s, i) && forall a :: a in more ==> a != Send(i)
    ensures var t := Run(o, s, more); HeldBy(t, i) && t.tx[i] == s.tx[i] && t.word == s.word
  {
    if more != [] {
      var before, a := more[..|more| - 1], more[|more| - 1];
      assert more == before + [a];
      assert a in more && forall b :: b in before ==> b in more;
      HeldRun(o, s, before, i);
      HeldStep(o, Run(o, s, before), a, i);
    }
  }

  /** While the holder does not run the trap spins and the word stands still, so a post must not be interrupted by the trap it wakes. */
  lemma TrapWaitsForHolder(o: Order, n: nat, sched: seq<Action>, more: seq<Action>, i: nat)
    requires Holds(Run(o, Init(n), sched), Tx(i)) && Run(o, Init(n), sched).rx.AcquiringLock?
    requires forall a :: a in more ==> a != Send(i)
    ensures var s := Run(o, Init(n), sched);
            var t := Run(o, s, more);
            t.rx.AcquiringLock? && t.word == s.word
  {
    var s := Run(o, Init(n), sched);
    RunKeepsInv(o, n, sched);
    MutualExclusion(o, n, sched, Tx(i), Tx(i));
    assert forall j :: 0 <= j < |s.tx| && Holds(s, Tx(j)) ==> Tx(j) == Tx(i);
    HeldRun(o, s, more, i);
  }
}
