/**
 * The SDIO command engine of Source/dev/sdio.c. A command is either issued and waited for in one call, or issued
 * by one call and collected by another. The card is any function from its state and the programmed request to a
 * new state and an outcome, and the outcome may take any number of engine steps to arrive.
 */
module Sdio {

  // eCmdRespType.
  datatype RespType = R1 | R1b | R2 | R3 | R4 | R5 | R6 | R7
  datatype Result = OK | FAIL

  /** The four response words, CMD_RESP_DAT127_96 first. */
  datatype Response = Response(w0: int, w1: int, w2: int, w3: int)

  /** What the command registers ask of the card. */
  datatype Request = Request(idx: nat, arg: int, busyEn: bool, long: bool, respEn: bool)

  /** What the card answers, `lag` engine steps later. */
  datatype Outcome = Outcome(lag: nat, tout: bool, crcErr: bool, resp: Response)

  /** The registers, the card, and the outcome under way while CMD_EN is set. */
  datatype State<C> = State(req: Request, en: bool, tout: bool, crcErr: bool, resp: Response, card: C, pending: Outcome)

  type Card<!C> = (C, Request) -> (C, Outcome)

  const IDX_RANGE: nat := 64   // CMD_IDX has six bits

  /** The commands whose response carries no checksum of its own. */
  predicate Lenient(cmd: nat) { cmd == 2 || cmd == 9 || cmd == 10 || cmd == 41 }

  function Verdict(cmd: nat, tout: bool, crcErr: bool): Result {
    if tout || (crcErr && !Lenient(cmd)) then FAIL else OK
  }

  /** The request that issuing a command programs; the index is cut to its field. */
  function Programmed(cmd: nat, arg: int, t: RespType, respEn: bool): Request {
    Request(cmd % IDX_RANGE, arg, t == R1b, t == R2, respEn)
  }

  // ---------------------------------------------------------------- the engine

  /** One engine step. */
  function Step<C>(s: State<C>): State<C> {
    if !s.en then s
    else if s.pending.lag > 0 then s.(pending := s.pending.(lag := s.pending.lag - 1))
    else s.(en := false, tout := s.pending.tout, crcErr := s.pending.crcErr, resp := s.pending.resp)
  }

  function Steps<C>(s: State<C>, n: nat): State<C>
    decreases n
  {
    if n == 0 then s else Steps(Step(s), n - 1)
  }

  /** The state once CMD_EN reads 0. */
  function Drained<C>(s: State<C>): (r: State<C>)
    ensures !r.en
    decreases s.en, s.pending.lag
  {
    if s.en then Drained(Step(s)) else s
  }

  /** Setting CMD_EN hands the request to the card. */
  function Started<C>(card: Card<C>, s: State<C>, q: Request): State<C> {
    var (c, o) := card(s.card, q);
    s.(req := q, en := true, card := c, pending := o)
  }

  lemma {:induction false} WaitingIsDraining<C>(s: State<C>, n: nat)
    ensures Drained(Steps(s, n)) == Drained(s)
    decreases n
  {
    if n > 0 { WaitingIsDraining(Step(s), n - 1); }
  }

  lemma {:induction false} DrainedIs<C>(s: State<C>)
    requires s.en
    ensures Drained(s).req == s.req && Drained(s).card == s.card
    ensures Drained(s).tout == s.pending.tout && Drained(s).crcErr == s.pending.crcErr && Drained(s).resp == s.pending.resp
    decreases s.pending.lag
  {
    if s.pending.lag > 0 { DrainedIs(Step(s)); }
  }

  // ---------------------------------------------------------------- the three calls

  /** The words a buffer holds after `SdioGetResp`: one word, or four for a long response. */
  function Filled(buf: seq<int>, r: Response, t: RespType): (f: seq<int>)
    requires |buf| >= Room(t)
    ensures |f| == |buf|
  {
    if t == R2 then [r.w0, r.w1, r.w2, r.w3] + buf[4..] else [r.w0] + buf[1..]
  }

  function Room(t: RespType): nat { if t == R2 then 4 else 1 }

  /** The state after `SdioCmd_async`. */
  function Issued<C>(card: Card<C>, s: State<C>, cmd: nat, arg: int, respEn: bool, t: RespType): State<C> {
    Started(card, Drained(s), Programmed(cmd, arg, t, respEn))
  }

  /** The state after `SdioCmd`. */
  function Commanded<C>(card: Card<C>, s: State<C>, cmd: nat, arg: int, respEn: bool, t: RespType): State<C> {
    Drained(Issued(card, s, cmd, arg, respEn, t))
  }

  // ---------------------------------------------------------------- the laws

  /** The two ways end in the same registers and card, hence the same response words, after any wait in between. */
  lemma SameEnd<C>(card: Card<C>, s: State<C>, cmd: nat, arg: int, respEn: bool, t: RespType, wait: nat)
    ensures Drained(Steps(Issued(card, s, cmd, arg, respEn, t), wait)) == Commanded(card, s, cmd, arg, respEn, t)
    ensures Commanded(card, s, cmd, arg, respEn, t).req == Programmed(cmd, arg, t, respEn)
  {
    WaitingIsDraining(Issued(card, s, cmd, arg, respEn, t), wait);
    DrainedIs(Issued(card, s, cmd, arg, respEn, t));
  }

  /** The result of `SdioCmd`, which judges by the index it was given. */
  function SyncResult<C>(card: Card<C>, s: State<C>, cmd: nat, arg: int, respEn: bool, t: RespType): Result {
    var e := Commanded(card, s, cmd, arg, respEn, t);
    Verdict(cmd, e.tout, e.crcErr)
  }

  /** The result of `SdioCmdResp`, which judges by the index it reads back. */
  function Collected<C>(s: State<C>): Result {
    var e := Drained(s);
    Verdict(e.req.idx, e.tout, e.crcErr)
  }

  /** Issue, wait, collect reports the same as the synchronous call for every index that fits its field. */
  lemma SyncIsAsyncThenCollect<C>(card: Card<C>, s: State<C>, cmd: nat, arg: int, respEn: bool, t: RespType, wait: nat)
    requires cmd < IDX_RANGE
    ensures Collected(Steps(Issued(card, s, cmd, arg, respEn, t), wait)) == SyncResult(card, s, cmd, arg, respEn, t)
  {
    SameEnd(card, s, cmd, arg, respEn, t, wait);
  }

  /** For the whole byte range: they differ exactly when the index aliases a lenient one and only the checksum failed. */
  lemma DifferIff<C>(card: Card<C>, s: State<C>, cmd: nat, arg: int, respEn: bool, t: RespType, wait: nat)
    requires cmd < 256
    ensures var e := Commanded(card, s, cmd, arg, respEn, t);
            Collected(Steps(Issued(card, s, cmd, arg, respEn, t), wait)) != SyncResult(card, s, cmd, arg, respEn, t)
            <==> cmd >= IDX_RANGE && Lenient(cmd % IDX_RANGE) && e.crcErr && !e.tout
  {
    SameEnd(card, s, cmd, arg, respEn, t, wait);
  }

  ghost predicate AlwaysAgree<C(!new)>(s: State<C>, cmd: nat, arg: int, respEn: bool, t: RespType) {
    forall card: Card<C> :: SyncResult(card, s, cmd, arg, respEn, t) == Collected(Issued(card, s, cmd, arg, respEn, t))
  }

  /** The indices for which the two ways agree whatever the card does. */
  lemma AlwaysAgreeIff<C(!new)>(s: State<C>, cmd: nat, arg: int, respEn: bool, t: RespType)
    requires cmd < 256
    ensures AlwaysAgree(s, cmd, arg, respEn, t) <==> cmd < IDX_RANGE || !Lenient(cmd % IDX_RANGE)
  {
    var bad: Card<C> := (c, q) => (c, Outcome(0, false, true, Response(0, 0, 0, 0)));
    var at := Issued(bad, s, cmd, arg, respEn, t);
    DrainedIs(at);
    DifferIff(bad, s, cmd, arg, respEn, t, 0);
    assert Steps(at, 0) == at;
    forall card: Card<C> | cmd < IDX_RANGE || !Lenient(cmd % IDX_RANGE)
      ensures SyncResult(card, s, cmd, arg, respEn, t) == Collected(Issued(card, s, cmd, arg, respEn, t))
    {
      DifferIff(card, s, cmd, arg, respEn, t, 0);
      assert Steps(Issued(card, s, cmd, arg, respEn, t), 0) == Issued(card, s, cmd, arg, respEn, t);
    }
  }

  /** Issuing a second command before collecting the first: only the second one's outcome is left to collect. */
  lemma SecondReplacesFirst<C>(card: Card<C>, s: State<C>, a: Call, b: Call, wait: nat)
    ensures var first := Commanded(card, s, a.cmd, a.arg, a.respEn, a.t);
            var both := Issued(card, Steps(Issued(card, s, a.cmd, a.arg, a.respEn, a.t), wait), b.cmd, b.arg, b.respEn, b.t);
            Drained(both) == Commanded(card, first, b.cmd, b.arg, b.respEn, b.t)
  {
    SameEnd(card, s, a.cmd, a.arg, a.respEn, a.t, wait);
  }

  // ---------------------------------------------------------------- what the card is asked, and what comes back

  /** The card receives the low six bits of the index, the argument, the two response flags of the type, and the enable. */
  lemma CardReceives<C>(card: Card<C>, s: State<C>, cmd: nat, arg: int, respEn: bool, t: RespType)
    ensures var c := card(Drained(s).card, Request(cmd % 64, arg, t == R1b, t == R2, respEn));
            var i, e := Issued(card, s, cmd, arg, respEn, t), Commanded(card, s, cmd, arg, respEn, t);
            && i.en && i.card == c.0 && i.pending == c.1
            && e.card == c.0 && e.tout == c.1.tout && e.crcErr == c.1.crcErr && e.resp == c.1.resp
  {
    DrainedIs(Issued(card, s, cmd, arg, respEn, t));
  }

  /** A synchronous command fails on a timeout, or on a bad checksum unless it is command 2, 9, 10 or 41. */
  lemma CommandFailsIff<C>(card: Card<C>, s: State<C>, cmd: nat, arg: int, respEn: bool, t: RespType)
    ensures var o := card(Drained(s).card, Request(cmd % 64, arg, t == R1b, t == R2, respEn)).1;
            SyncResult(card, s, cmd, arg, respEn, t) == FAIL <==> o.tout || (o.crcErr && cmd !in {2, 9, 10, 41})
  {
    CardReceives(card, s, cmd, arg, respEn, t);
  }

  /** Which words a buffer holds afterwards: the top one, and for a long response the other three in falling order. */
  lemma FilledWords(buf: seq<int>, r: Response, t: RespType)
    requires |buf| >= Room(t)
    ensures Room(t) == if t == R2 then 4 else 1
    ensures var f := Filled(buf, r, t);
            && f[0] == r.w0
            && (t == R2 ==> f[1] == r.w1 && f[2] == r.w2 && f[3] == r.w3)
            && forall k :: (if t == R2 then 4 else 1) <= k < |buf| ==> f[k] == buf[k]
  {
  }

  // ---------------------------------------------------------------- whole runs

  /** A command, with the number of engine steps its caller lets pass before collecting. */
  datatype Call = Call(cmd: nat, arg: int, respEn: bool, t: RespType, wait: nat)
  datatype Report = Report(result: Result, resp: Response)

  /** The reports of a list of synchronous commands, and the state they leave. */
  function SyncRun<C>(card: Card<C>, s: State<C>, calls: seq<Call>): (seq<Report>, State<C>)
    decreases |calls|
  {
    if calls == [] then ([], s)
    else
      var c := calls[0];
      var e := Commanded(card, s, c.cmd, c.arg, c.respEn, c.t);
      var rest := SyncRun(card, e, calls[1..]);
      ([Report(SyncResult(card, s, c.cmd, c.arg, c.respEn, c.t), e.resp)] + rest.0, rest.1)
  }

  /** The same list, each command issued, left alone for its wait, then collected. */
  function AsyncRun<C>(card: Card<C>, s: State<C>, calls: seq<Call>): (seq<Report>, State<C>)
    decreases |calls|
  {
    if calls == [] then ([], s)
    else
      var c := calls[0];
      var w := Steps(Issued(card, s, c.cmd, c.arg, c.respEn, c.t), c.wait);
      var e := Drained(w);
      var rest := AsyncRun(card, e, calls[1..]);
      ([Report(Collected(w), e.resp)] + rest.0, rest.1)
  }

  /** A whole run of commands reports the same both ways, whatever the card and the waits. */
  lemma {:induction false} RunsAgree<C>(card: Card<C>, s: State<C>, calls: seq<Call>)
    requires forall c :: c in calls ==> c.cmd < IDX_RANGE
    ensures SyncRun(card, s, calls) == AsyncRun(card, s, calls)
    decreases |calls|
  {
    if calls != [] {
      var c := calls[0];
      SameEnd(card, s, c.cmd, c.arg, c.respEn, c.t, c.wait);
      SyncIsAsyncThenCollect(card, s, c.cmd, c.arg, c.respEn, c.t, c.wait);
      RunsAgree(card, Commanded(card, s, c.cmd, c.arg, c.respEn, c.t), calls[1..]);
    }
  }

  // ---------------------------------------------------------------- the registers

  class Controller<!C(!new)> {
    const card: Card<C>
    var CMD_IDX: nat
    var CMD_ARG: int
    var CMD_RESP_BUSY_EN: bool
    var CMD_RESP_TYPE: bool
    var CMD_RESP_EN: bool
    var CMD_EN: bool
    var CMD_RESP_TOUT: bool
    var CMD_RESP_CRCERR: bool
    var CMD_RESP_DAT: Response
    var cardState: C
    var pending: Outcome

    ghost function Snapshot(): State<C>
      reads this
    {
      State(Request(CMD_IDX, CMD_ARG, CMD_RESP_BUSY_EN, CMD_RESP_TYPE, CMD_RESP_EN),
            CMD_EN, CMD_RESP_TOUT, CMD_RESP_CRCERR, CMD_RESP_DAT, cardState, pending)
    }

    constructor (card: Card<C>, cardState: C)
      ensures this.card == card && !CMD_EN && this.cardState == cardState
    {
      this.card := card;
      this.cardState := cardState;
      CMD_IDX, CMD_ARG := 0, 0;
      CMD_RESP_BUSY_EN, CMD_RESP_TYPE, CMD_RESP_EN, CMD_EN := false, false, false, false;
      CMD_RESP_TOUT, CMD_RESP_CRCERR := false, false;
      CMD_RESP_DAT := Response(0, 0, 0, 0);
      pending := Outcome(0, false, false, Response(0, 0, 0, 0));
    }

    /** The hardware, between two reads of CMD_EN. */
    method Engine()
      modifies this
      ensures Snapshot() == Step(old(Snapshot()))
    {
      if CMD_EN {
        if pending.lag > 0 {
          pending := pending.(lag := pending.lag - 1);
        } else {
          CMD_EN := false;
          CMD_RESP_TOUT, CMD_RESP_CRCERR, CMD_RESP_DAT := pending.tout, pending.crcErr, pending.resp;
        }
      }
    }

    /** `while (CMD_EN);` */
    method Spin()
      modifies this
      ensures Snapshot() == Drained(old(Snapshot()))
    {
      while CMD_EN
        invariant Drained(Snapshot()) == Drained(old(Snapshot()))
        decreases CMD_EN, pending.lag
      {
        Engine();
      }
    }

    /** Writing 1 to CMD_EN. */
    method Go()
      modifies this
      ensures Snapshot() == Started(card, old(Snapshot()), old(Snapshot()).req)
    {
      CMD_EN := true;
      var r := card(cardState, Request(CMD_IDX, CMD_ARG, CMD_RESP_BUSY_EN, CMD_RESP_TYPE, CMD_RESP_EN));
      cardState, pending := r.0, r.1;
    }

    /** `SdioGetResp`. */
    method GetResp(nResp: array<int>, t: RespType)
      requires nResp.Length >= Room(t)
      modifies nResp
      ensures nResp[..] == Filled(old(nResp[..]), CMD_RESP_DAT, t)
      ensures nResp[0] == CMD_RESP_DAT.w0
      ensures t == R2 ==> nResp[1] == CMD_RESP_DAT.w1 && nResp[2] == CMD_RESP_DAT.w2 && nResp[3] == CMD_RESP_DAT.w3
    {
      nResp[0] := CMD_RESP_DAT.w0;
      if t == R2 {
        nResp[1] := CMD_RESP_DAT.w1;
        nResp[2] := CMD_RESP_DAT.w2;
        nResp[3] := CMD_RESP_DAT.w3;
      }
    }

    /** `SdioCmd_async`. */
    method CmdAsync(cmd: nat, arg: int, enResp: bool, t: RespType) returns (res: Result)
      requires cmd < 256
      modifies this
      ensures res == OK && Snapshot() == Issued(card, old(Snapshot()), cmd, arg, enResp, t)
      ensures CMD_EN && (cardState, pending) ==
                card(old(Drained(Snapshot())).card, Request(cmd % 64, arg, t == R1b, t == R2, enResp))
    {
      CardReceives(card, Snapshot(), cmd, arg, enResp, t);
      Spin();
      ghost var s := Snapshot();
      CMD_IDX := cmd % IDX_RANGE;
      CMD_ARG := arg;
      match t {
        case R1b =>
          CMD_RESP_BUSY_EN := true;
          CMD_RESP_TYPE := false;
        case R2 =>
          CMD_RESP_BUSY_EN := false;
          CMD_RESP_TYPE := true;
        case _ =>
          CMD_RESP_BUSY_EN := false;
          CMD_RESP_TYPE := false;
      }
      if enResp {
        CMD_RESP_EN := true;
      } else {
        CMD_RESP_EN := false;
      }
      assert Snapshot() == s.(req := Programmed(cmd, arg, t, enResp));
      Go();
      return OK;
    }

    /** `SdioCmdResp`. */
    method CmdResp(nResp: array?<int>, t: RespType) returns (res: Result)
      requires nResp != null ==> nResp.Length >= Room(t)
      modifies this, nResp
      ensures Snapshot() == Drained(old(Snapshot())) && res == Collected(old(Snapshot()))
      ensures res == FAIL <==> CMD_RESP_TOUT || (CMD_RESP_CRCERR && CMD_IDX !in {2, 9, 10, 41})
      ensures nResp != null ==> nResp[..] == Filled(old(nResp[..]), Snapshot().resp, t)
    {
      res := OK;
      Spin();
      var cmd := CMD_IDX;
      if cmd == 2 || cmd == 9 || cmd == 10 || cmd == 41 {
        if CMD_RESP_TOUT { res := FAIL; }
      } else {
        if CMD_RESP_TOUT || CMD_RESP_CRCERR { res := FAIL; }
      }
      if nResp != null { GetResp(nResp, t); }
    }

    /** `SdioCmd` up to the start of the command. */
    method CmdStart(cmd: nat, arg: int, t: RespType, hasBuffer: bool)
      modifies this
      ensures Snapshot() == Issued(card, old(Snapshot()), cmd, arg, hasBuffer, t)
    {
      Spin();
      ghost var s := Snapshot();
      CMD_IDX := cmd % IDX_RANGE;
      CMD_ARG := arg;
      match t {
        case R1b =>
          CMD_RESP_BUSY_EN := true;
          CMD_RESP_TYPE := false;
        case R2 =>
          CMD_RESP_BUSY_EN := false;
          CMD_RESP_TYPE := true;
        case _ =>
          CMD_RESP_BUSY_EN := false;
          CMD_RESP_TYPE := false;
      }
      if hasBuffer {
        CMD_RESP_EN := true;
      } else {
        CMD_RESP_EN := false;
      }
      assert Snapshot() == s.(req := Programmed(cmd, arg, t, hasBuffer));
      Go();
    }

    /** `SdioCmd`: the response is enabled iff there is a buffer for it, and the result is judged by the index given. */
    method Cmd(cmd: nat, arg: int, nResp: array?<int>, t: RespType) returns (res: Result)
      requires cmd < 256
      requires nResp != null ==> nResp.Length >= Room(t)
      modifies this, nResp
      ensures Snapshot() == Commanded(card, old(Snapshot()), cmd, arg, nResp != null, t)
      ensures res == SyncResult(card, old(Snapshot()), cmd, arg, nResp != null, t)
      ensures nResp != null ==> nResp[..] == Filled(old(nResp[..]), Snapshot().resp, t)
      ensures var (c, o) := card(old(Drained(Snapshot())).card, Request(cmd % 64, arg, t == R1b, t == R2, nResp != null));
              && cardState == c && (res == FAIL <==> o.tout || (o.crcErr && cmd !in {2, 9, 10, 41}))
              && (nResp != null ==> nResp[0] == o.resp.w0)
              && (nResp != null && t == R2 ==> nResp[1] == o.resp.w1 && nResp[2] == o.resp.w2 && nResp[3] == o.resp.w3)
    {
      CardReceives(card, Snapshot(), cmd, arg, nResp != null, t);
      CommandFailsIff(card, Snapshot(), cmd, arg, nResp != null, t);
      res := OK;
      CmdStart(cmd, arg, t, nResp != null);
      Spin();
      if cmd == 2 || cmd == 9 || cmd == 10 || cmd == 41 {
        if CMD_RESP_TOUT { res := FAIL; }
      } else {
        if CMD_RESP_TOUT || CMD_RESP_CRCERR { res := FAIL; }
      }
      if nResp != null { GetResp(nResp, t); }
    }
  }
}
