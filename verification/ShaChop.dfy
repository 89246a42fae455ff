/**
 * The SHA unit of Source/dev/sha.c: a message hashed in segments (a chop session) against the same message hashed in
 * one shot. The hash itself is left open: it is any engine that absorbs segments and finishes with a total length.
 */
module ShaChop {
  import opened Words
  import opened Arith

  datatype Mode = SHA224 | SHA256
  datatype Cmd = Init | Update | Final

  const WRAP: nat := 0x1_0000_0000   // UINT

  type Bytes = seq<Byte>
  type Digest = d: seq<bv32> | |d| == 8 witness [0, 0, 0, 0, 0, 0, 0, 0]

  /** The hash hardware; `block` is the length a segment must be a multiple of to be continued. */
  datatype Engine<!S> = Engine(block: nat, start: Mode -> S, absorb: (Mode, S, Bytes) -> S, finish: (Mode, S, nat) -> Digest)

  /** Absorbing whole blocks and then more is absorbing both at once. */
  ghost predicate Appends<S(!new)>(e: Engine<S>) {
    e.block > 0
    && forall m, s, a: Bytes, b: Bytes :: |a| % e.block == 0 ==> e.absorb(m, e.absorb(m, s, a), b) == e.absorb(m, s, a + b)
  }

  /** One chop command and the segment it names. */
  datatype Call = Call(cmd: Cmd, mode: Mode, data: Bytes)

  /** The running total of the item, the programmed total, the engine and the digest registers. */
  datatype State<S> = State(tot: nat, lenTot: nat, core: S, digest: Digest)

  function After<S>(e: Engine<S>, s: State<S>, c: Call): State<S> {
    var tot := if c.cmd == Init then |c.data| % WRAP else (s.tot + |c.data|) % WRAP;
    var core := e.absorb(c.mode, if c.cmd == Init then e.start(c.mode) else s.core, c.data);
    if c.cmd == Final then State(tot, tot, core, e.finish(c.mode, core, tot)) else State(tot, s.lenTot, core, s.digest)
  }

  function AfterAll<S>(e: Engine<S>, s: State<S>, calls: seq<Call>): State<S>
    decreases |calls|
  {
    if calls == [] then s else After(e, AfterAll(e, s, calls[..|calls| - 1]), calls[|calls| - 1])
  }

  /** The digest of the one-shot calculation. */
  function OneShot<S>(e: Engine<S>, mode: Mode, data: Bytes): Digest {
    e.finish(mode, e.absorb(mode, e.start(mode), data), |data|)
  }

  // ---------------------------------------------------------------- any sequence of commands

  /** The message so far: the segments from the last Init on. */
  function Message(calls: seq<Call>): Bytes {
    if calls == [] then []
    else
      var c := calls[|calls| - 1];
      if c.cmd == Init then c.data else Message(calls[..|calls| - 1]) + c.data
  }

  predicate Begun(calls: seq<Call>) { exists i :: 0 <= i < |calls| && calls[i].cmd == Init }

  /** One mode throughout, and every segment that is continued is made of whole blocks. */
  predicate Regular(calls: seq<Call>, mode: Mode, block: nat)
    requires block > 0
  {
    (forall i :: 0 <= i < |calls| ==> calls[i].mode == mode)
    && forall i :: 0 <= i < |calls| - 1 ==> |calls[i].data| % block == 0
  }

  lemma WholeSum(a: nat, b: nat, k: nat)
    requires k > 0 && a % k == 0 && b % k == 0
    ensures (a + b) % k == 0
  {
    ModAdd(a, b, k);
  }

  lemma {:induction false} WholeBlocks(calls: seq<Call>, block: nat)
    requires block > 0 && forall i :: 0 <= i < |calls| ==> |calls[i].data| % block == 0
    ensures |Message(calls)| % block == 0
  {
    if calls != [] {
      var n := |calls| - 1;
      var before := calls[..n];
      assert forall i :: 0 <= i < n ==> before[i] == calls[i];
      WholeBlocks(before, block);
      WholeSum(|Message(calls[..n])|, |calls[n].data|, block);
    }
  }

  /** Once begun, the total is the message's length modulo 2^32, whatever came before the Init. */
  lemma {:induction false} TotalIsLength<S>(e: Engine<S>, s: State<S>, calls: seq<Call>)
    requires Begun(calls)
    ensures AfterAll(e, s, calls).tot == |Message(calls)| % WRAP
  {
    var n := |calls| - 1;
    if calls[n].cmd != Init {
      assert Begun(calls[..n]);
      TotalIsLength(e, s, calls[..n]);
      ModAdd(|Message(calls[..n])|, |calls[n].data|, WRAP);
    }
  }

  /** Once begun, the engine has absorbed exactly the message. */
  lemma {:induction false} CoreIsMessage<S(!new)>(e: Engine<S>, s: State<S>, calls: seq<Call>, mode: Mode)
    requires Appends(e) && Begun(calls) && Regular(calls, mode, e.block)
    ensures AfterAll(e, s, calls).core == e.absorb(mode, e.start(mode), Message(calls))
  {
    var n := |calls| - 1;
    if calls[n].cmd != Init {
      var before := calls[..n];
      assert Begun(before);
      assert Regular(before, mode, e.block);
      CoreIsMessage(e, s, before, mode);
      WholeBlocks(before, e.block);
      assert e.absorb(mode, e.absorb(mode, e.start(mode), Message(before)), calls[n].data)
          == e.absorb(mode, e.start(mode), Message(before) + calls[n].data);
    }
  }

  /** A finished session: the programmed total, and the digest for that total. */
  lemma FinishedSession<S(!new)>(e: Engine<S>, s: State<S>, calls: seq<Call>, mode: Mode)
    requires Appends(e) && Begun(calls) && Regular(calls, mode, e.block) && calls[|calls| - 1].cmd == Final
    ensures var r := AfterAll(e, s, calls);
            r.lenTot == |Message(calls)| % WRAP
            && r.digest == e.finish(mode, e.absorb(mode, e.start(mode), Message(calls)), |Message(calls)| % WRAP)
  {
    TotalIsLength(e, s, calls);
    CoreIsMessage(e, s, calls, mode);
  }

  /** A finished session of fewer than 2^32 bytes ends with the one-shot digest of its message. */
  lemma FinishedIsOneShot<S(!new)>(e: Engine<S>, s: State<S>, calls: seq<Call>, mode: Mode)
    requires Appends(e) && Begun(calls) && Regular(calls, mode, e.block) && calls[|calls| - 1].cmd == Final
    requires |Message(calls)| < WRAP
    ensures AfterAll(e, s, calls).digest == OneShot(e, mode, Message(calls))
  {
    FinishedSession(e, s, calls, mode);
  }

  // ---------------------------------------------------------------- one session

  /** The calls of a session: Init on the first segment, Update on those between, Final on the last. */
  function Session(mode: Mode, first: Bytes, middle: seq<Bytes>, last: Bytes): (c: seq<Call>)
    ensures |c| == |middle| + 2
  {
    Opening(mode, first, middle) + [Call(Final, mode, last)]
  }

  function Concat(segments: seq<Bytes>): Bytes {
    if segments == [] then [] else Concat(segments[..|segments| - 1]) + segments[|segments| - 1]
  }

  function TotalLength(segments: seq<Bytes>): nat {
    if segments == [] then 0 else TotalLength(segments[..|segments| - 1]) + |segments[|segments| - 1]|
  }

  lemma {:induction false} ConcatLength(segments: seq<Bytes>)
    ensures |Concat(segments)| == TotalLength(segments)
  {
    if segments != [] { ConcatLength(segments[..|segments| - 1]); }
  }

  function Opening(mode: Mode, first: Bytes, middle: seq<Bytes>): (c: seq<Call>)
    ensures |c| == |middle| + 1
  {
    [Call(Init, mode, first)] + seq(|middle|, i requires 0 <= i < |middle| => Call(Update, mode, middle[i]))
  }

  lemma {:induction false} OpeningMessage(mode: Mode, first: Bytes, middle: seq<Bytes>)
    ensures Message(Opening(mode, first, middle)) == Concat([first] + middle)
  {
    var n := |middle|;
    var calls := Opening(mode, first, middle);
    if n == 0 {
      assert ([first] + middle)[..0] == [];
      assert Concat([first] + middle) == Concat([]) + first;
    } else {
      OpeningMessage(mode, first, middle[..n - 1]);
      assert calls[..n] == Opening(mode, first, middle[..n - 1]);
      assert ([first] + middle)[..n] == [first] + middle[..n - 1];
    }
  }

  lemma SessionMessage(mode: Mode, first: Bytes, middle: seq<Bytes>, last: Bytes)
    ensures Message(Session(mode, first, middle, last)) == Concat([first] + middle + [last])
  {
    var calls := Session(mode, first, middle, last);
    OpeningMessage(mode, first, middle);
    assert calls[..|middle| + 1] == Opening(mode, first, middle);
    assert ([first] + middle + [last])[..|middle| + 1] == [first] + middle;
  }

  /** A session programs the sum of its segment lengths, which is right iff the sum is below 2^32. */
  lemma ProgrammedTotal<S>(e: Engine<S>, s: State<S>, mode: Mode, first: Bytes, middle: seq<Bytes>, last: Bytes)
    ensures var sum := TotalLength([first] + middle + [last]);
            var r := AfterAll(e, s, Session(mode, first, middle, last));
            r.lenTot == sum % WRAP && (r.lenTot == sum <==> sum < WRAP)
  {
    var calls := Session(mode, first, middle, last);
    assert calls[0].cmd == Init;
    TotalIsLength(e, s, calls);
    SessionMessage(mode, first, middle, last);
    ConcatLength([first] + middle + [last]);
  }

  /** A session ends with the one-shot digest of its segments put together. */
  lemma SessionIsOneShot<S(!new)>(e: Engine<S>, s: State<S>, mode: Mode, first: Bytes, middle: seq<Bytes>, last: Bytes)
    requires Appends(e) && |first| % e.block == 0 && forall i :: 0 <= i < |middle| ==> |middle[i]| % e.block == 0
    requires TotalLength([first] + middle + [last]) < WRAP
    ensures AfterAll(e, s, Session(mode, first, middle, last)).digest == OneShot(e, mode, Concat([first] + middle + [last]))
  {
    var calls := Session(mode, first, middle, last);
    assert calls[0].cmd == Init;
    SessionMessage(mode, first, middle, last);
    ConcatLength([first] + middle + [last]);
    FinishedIsOneShot(e, s, calls, mode);
  }

  // ---------------------------------------------------------------- reading the digest out

  // ENX_HTONL.
  function Htonl(x: bv32): bv32 {
    ((x & 0xFF) << 24) | ((x & 0xFF00) << 8) | ((x & 0xFF_0000) >> 8) | ((x & 0xFF00_0000) >> 24)
  }

  /** The four bytes of a word, most significant first. */
  function BigEndian(x: bv32): (b: Bytes)
    ensures |b| == 4
  {
    [((x >> 24) & 0xFF) as Byte, ((x >> 16) & 0xFF) as Byte, ((x >> 8) & 0xFF) as Byte, (x & 0xFF) as Byte]
  }

  /** The four bytes a store of a word writes on this little-endian core. */
  function LittleEndian(x: bv32): (b: Bytes)
    ensures |b| == 4
  {
    [(x & 0xFF) as Byte, ((x >> 8) & 0xFF) as Byte, ((x >> 16) & 0xFF) as Byte, ((x >> 24) & 0xFF) as Byte]
  }

  /** Storing the swapped word writes the word's bytes most significant first. */
  lemma StoreIsBigEndian(x: bv32)
    ensures LittleEndian(Htonl(x)) == BigEndian(x)
  {
  }

  function DigestWords(mode: Mode): nat { if mode == SHA256 then 8 else 7 }

  /** The first n words as bytes. */
  function Bytewise(d: Digest, n: nat): (b: Bytes)
    requires n <= 8
    ensures |b| == 4 * n
  {
    if n == 0 then [] else Bytewise(d, n - 1) + BigEndian(d[n - 1])
  }

  function DigestBytes(d: Digest, mode: Mode): (b: Bytes)
    ensures |b| == 4 * DigestWords(mode)
  {
    Bytewise(d, DigestWords(mode))
  }

  lemma BigEndianInjective(x: bv32, y: bv32)
    requires BigEndian(x) == BigEndian(y)
    ensures x == y
  {
  }

  lemma FrontSlice(p: Bytes, b: Bytes, i: nat, j: nat)
    requires i <= j <= |p|
    ensures (p + b)[i..j] == p[i..j]
  {
  }

  lemma BackSlice(p: Bytes, b: Bytes)
    ensures (p + b)[|p|..|p| + |b|] == b
  {
  }

  lemma {:induction false} WordAt(d: Digest, n: nat, k: nat)
    requires k < n <= 8
    ensures Bytewise(d, n)[4 * k..4 * k + 4] == BigEndian(d[k])
  {
    if k < n - 1 {
      WordAt(d, n - 1, k);
      FrontSlice(Bytewise(d, n - 1), BigEndian(d[n - 1]), 4 * k, 4 * k + 4);
    } else {
      BackSlice(Bytewise(d, n - 1), BigEndian(d[n - 1]));
    }
  }

  lemma TopBytes(x: bv32)
    ensures BigEndian(x)[0] == (x >> 24) as Byte && BigEndian(x)[1] == ((x >> 16) & 0xFF) as Byte
    ensures BigEndian(x)[2] == ((x >> 8) & 0xFF) as Byte && BigEndian(x)[3] == (x & 0xFF) as Byte
  {
  }

  /** Where each byte of a digest word goes: word k starts at byte 4k, its top byte first; 28 bytes in SHA-224 mode, else 32. */
  lemma DigestByteAt(d: Digest, mode: Mode, k: nat)
    requires k < if mode == SHA256 then 8 else 7
    ensures |DigestBytes(d, mode)| == if mode == SHA256 then 32 else 28
    ensures DigestBytes(d, mode)[4 * k] == (d[k] >> 24) as Byte
    ensures DigestBytes(d, mode)[4 * k + 1] == ((d[k] >> 16) & 0xFF) as Byte
    ensures DigestBytes(d, mode)[4 * k + 2] == ((d[k] >> 8) & 0xFF) as Byte
    ensures DigestBytes(d, mode)[4 * k + 3] == (d[k] & 0xFF) as Byte
  {
    var b := DigestBytes(d, mode);
    WordAt(d, DigestWords(mode), k);
    TopBytes(d[k]);
    var w := b[4 * k..4 * k + 4];
    assert w[0] == b[4 * k] && w[1] == b[4 * k + 1] && w[2] == b[4 * k + 2] && w[3] == b[4 * k + 3];
  }

  lemma BytesDetermineLast(d: Digest, e: Digest, n: nat)
    requires 0 < n <= 8 && Bytewise(d, n) == Bytewise(e, n)
    ensures Bytewise(d, n - 1) == Bytewise(e, n - 1) && d[n - 1] == e[n - 1]
  {
    assert Bytewise(d, n)[..4 * n - 4] == Bytewise(d, n - 1) && Bytewise(e, n)[..4 * n - 4] == Bytewise(e, n - 1);
    assert Bytewise(d, n)[4 * n - 4..] == BigEndian(d[n - 1]) && Bytewise(e, n)[4 * n - 4..] == BigEndian(e[n - 1]);
    BigEndianInjective(d[n - 1], e[n - 1]);
  }

  lemma {:induction false} EqualWordsEqualBytes(d: Digest, e: Digest, n: nat)
    requires n <= 8 && d[..n] == e[..n]
    ensures Bytewise(d, n) == Bytewise(e, n)
  {
    if n > 0 {
      assert d[..n - 1] == d[..n][..n - 1] && e[..n - 1] == e[..n][..n - 1];
      assert d[..n][n - 1] == e[..n][n - 1];
      EqualWordsEqualBytes(d, e, n - 1);
    }
  }

  lemma {:induction false} EqualBytesEqualWords(d: Digest, e: Digest, n: nat)
    requires n <= 8 && Bytewise(d, n) == Bytewise(e, n)
    ensures d[..n] == e[..n]
  {
    if n > 0 {
      BytesDetermineLast(d, e, n);
      EqualBytesEqualWords(d, e, n - 1);
      assert d[..n] == d[..n - 1] + [d[n - 1]] && e[..n] == e[..n - 1] + [e[n - 1]];
    }
  }

  /** Comparing the bytes written is comparing the words that count in the mode. */
  lemma BytesDetermineWords(d: Digest, e: Digest, mode: Mode)
    ensures DigestBytes(d, mode) == DigestBytes(e, mode) <==> d[..DigestWords(mode)] == e[..DigestWords(mode)]
  {
    var n := DigestWords(mode);
    if Bytewise(d, n) == Bytewise(e, n) {
      EqualBytesEqualWords(d, e, n);
    } else if d[..n] == e[..n] {
      EqualWordsEqualBytes(d, e, n);
    }
  }

  // ---------------------------------------------------------------- the registers

  /** `SHAChopitem`; a pointer stands for the bytes it points at. */
  class ChopItem {
    var base: Bytes
    var tot_len: nat
    var mode: Mode
    var cmd: Cmd

    constructor (base: Bytes, tot_len: nat, mode: Mode, cmd: Cmd)
      ensures this.base == base && this.tot_len == tot_len && this.mode == mode && this.cmd == cmd
    {
      this.base, this.tot_len, this.mode, this.cmd := base, tot_len, mode, cmd;
    }
  }

  lemma FourStores(was: Bytes, at: nat, b: Bytes)
    requires |b| == 4 && at + 4 <= |was|
    ensures was[at := b[0]][at + 1 := b[1]][at + 2 := b[2]][at + 3 := b[3]] == was[..at] + b + was[at + 4..]
  {
  }

  lemma TailKept(d: Bytes, was: Bytes, b: Bytes)
    requires |b| <= |was| && d == b + was[|b|..]
    ensures |d| == |was| && forall i :: |b| <= i < |was| ==> d[i] == was[i]
  {
  }

  /** What the engine makes of a request: `chop` is the operation bit, and the lengths have been programmed. */
  function Serve<S>(e: Engine<S>, s: State<S>, chop: bool, c: Call): State<S> {
    if !chop then s.(digest := OneShot(e, c.mode, c.data))
    else
      var core := e.absorb(c.mode, if c.cmd == Init then e.start(c.mode) else s.core, c.data);
      s.(core := core, digest := if c.cmd == Final then e.finish(c.mode, core, s.lenTot) else s.digest)
  }

  /** Programming the lengths and then serving the request is a step of the session. */
  lemma ServeIsAfter<S>(e: Engine<S>, s: State<S>, c: Call, tot: nat, lenTot: nat)
    requires tot == (if c.cmd == Init then |c.data| % WRAP else (s.tot + |c.data|) % WRAP)
    requires lenTot == if c.cmd == Final then tot else s.lenTot
    ensures Serve(e, s.(tot := tot, lenTot := lenTot), true, c) == After(e, s, c)
  {
  }

  class ShaUnit<!S(!new)> {
    const engine: Engine<S>
    var SRC: Bytes
    var LEN_CUR: nat
    var LEN_TOT: nat
    var OP: bool
    var MODE: Mode
    var CMD: Cmd
    var REQ: bool
    var core: S
    var DIGEST: Digest
    var lag: nat

    ghost predicate Valid()
      reads this
    {
      LEN_CUR <= |SRC|
    }

    /** What the engine and its digest registers hold once the request under way, if any, is served. */
    ghost function Served(tot: nat): State<S>
      reads this
      requires Valid()
    {
      var now := State(tot, LEN_TOT, core, DIGEST);
      if REQ then Serve(engine, now, OP, Call(CMD, MODE, SRC[..LEN_CUR])) else now
    }

    constructor (engine: Engine<S>, core: S)
      ensures Valid() && !REQ && this.engine == engine
    {
      this.engine, this.core := engine, core;
      SRC, LEN_CUR, LEN_TOT := [], 0, 0;
      OP, MODE, CMD, REQ := false, SHA224, Init, false;
      DIGEST, lag := [0, 0, 0, 0, 0, 0, 0, 0], 0;
    }

    /** The hardware, between two reads of REQ. */
    method Engine()
      requires Valid()
      modifies this
      ensures Valid() && forall tot :: Served(tot) == old(Served(tot))
      ensures old(REQ) ==> if REQ then lag < old(lag) else true
      ensures !old(REQ) ==> !REQ
    {
      if REQ {
        if lag > 0 {
          lag := lag - 1;
        } else {
          if OP {
            core := engine.absorb(MODE, if CMD == Init then engine.start(MODE) else core, SRC[..LEN_CUR]);
            if CMD == Final { DIGEST := engine.finish(MODE, core, LEN_TOT); }
          } else {
            DIGEST := OneShot(engine, MODE, SRC[..LEN_CUR]);
          }
          REQ := false;
        }
      }
    }

    /** `while (SHA_REQ);` */
    method Spin()
      requires Valid()
      modifies this
      ensures Valid() && !REQ && forall tot :: Served(tot) == old(Served(tot))
    {
      while REQ
        invariant Valid() && forall tot :: Served(tot) == old(Served(tot))
        decreases REQ, lag
      {
        Engine();
      }
    }

    /** The switch of `ShaChopCalc_isr_async`: lengths and the running total. */
    method Account(item: ChopItem, len: nat)
      modifies this`LEN_CUR, this`LEN_TOT, item`tot_len
      ensures LEN_CUR == len
      ensures item.tot_len == (if item.cmd == Init then len else (old(item.tot_len) + len) % WRAP)
      ensures LEN_TOT == if item.cmd == Final then item.tot_len else old(LEN_TOT)
    {
      match item.cmd {
        case Init =>
          LEN_CUR := len;
          item.tot_len := len;
        case Update =>
          LEN_CUR := len;
          item.tot_len := (item.tot_len + len) % WRAP;
        case Final =>
          LEN_CUR := len;
          item.tot_len := (item.tot_len + len) % WRAP;
          LEN_TOT := item.tot_len;
      }
    }

    /** `ShaChopCalc_isr_async`; on an idle engine the request, once served, is one step of the session. */
    method ChopCalcAsync(item: ChopItem, len: nat)
      requires Valid() && len <= |item.base| && len < WRAP
      modifies this, item`tot_len
      ensures Valid() && REQ
      ensures item.tot_len == (if item.cmd == Init then len else (old(item.tot_len) + len) % WRAP)
      ensures LEN_TOT == if item.cmd == Final then item.tot_len else old(LEN_TOT)
      ensures old(!REQ) ==>
                Served(item.tot_len) == After(engine, old(Served(item.tot_len)), Call(item.cmd, item.mode, item.base[..len]))
    {
      ghost var s, c := State(item.tot_len, LEN_TOT, core, DIGEST), Call(item.cmd, item.mode, item.base[..len]);
      SRC := item.base;
      Account(item, len);
      OP, MODE, CMD := true, item.mode, item.cmd;
      REQ, lag := true, *;
      ServeIsAfter(engine, s, c, item.tot_len, LEN_TOT);
    }

    /** `ShaChopCalc_isr`: the same, and the engine is idle on return. */
    method ChopCalc(item: ChopItem, len: nat)
      requires Valid() && len <= |item.base| && len < WRAP
      modifies this, item`tot_len
      ensures Valid() && !REQ
      ensures item.tot_len == (if item.cmd == Init then len else (old(item.tot_len) + len) % WRAP)
      ensures old(!REQ) ==>
                Served(item.tot_len) == After(engine, old(Served(item.tot_len)), Call(item.cmd, item.mode, item.base[..len]))
    {
      ChopCalcAsync(item, len);
      Spin();
    }

    /** `ShaShotCalc_isr`; what it does to a chop session under way is not promised. */
    method ShotCalc(src: Bytes, len: nat, mode: Mode)
      requires Valid() && len <= |src| && len < WRAP
      modifies this
      ensures Valid() && !REQ
      ensures old(!REQ) ==> DIGEST == OneShot(engine, mode, src[..len])
    {
      SRC := src;
      LEN_CUR := len;
      MODE := mode;
      OP := false;
      REQ, lag := true, *;
      Spin();
      assert DIGEST == Served(0).digest;
    }

    /** A store of four bytes at an address. */
    method Store(data: array<Byte>, at: nat, b: Bytes)
      requires |b| == 4 && at + 4 <= data.Length
      modifies data
      ensures data[..] == old(data[..at]) + b + old(data[at + 4..])
    {
      ghost var was := data[..];
      data[at], data[at + 1], data[at + 2], data[at + 3] := b[0], b[1], b[2], b[3];
      assert data[..] == was[at := b[0]][at + 1 := b[1]][at + 2 := b[2]][at + 3 := b[3]];
      FourStores(was, at, b);
    }

    /** The first k digest words are in place and the rest is as it was. */
    ghost predicate Partly(data: array<Byte>, k: nat, was: Bytes)
      reads this, data
    {
      k <= 8 && 4 * k <= data.Length == |was| && data[..] == Bytewise(DIGEST, k) + was[4 * k..]
    }

    method StoreDigestWord(data: array<Byte>, k: nat, ghost was: Bytes)
      requires k < 8 && 4 * k + 4 <= data.Length && Partly(data, k, was)
      modifies data
      ensures Partly(data, k + 1, was)
    {
      ghost var before := data[..];
      Store(data, 4 * k, LittleEndian(Htonl(DIGEST[k])));
      StoreIsBigEndian(DIGEST[k]);
      assert before[..4 * k] == Bytewise(DIGEST, k) && before[4 * k + 4..] == was[4 * k + 4..];
    }

    /** `ShaGetDigest`: the digest most significant byte first, and nothing past it. */
    method GetDigest(data: array<Byte>, mode: Mode)
      requires data.Length >= 4 * DigestWords(mode)
      modifies data
      ensures data[..] == DigestBytes(DIGEST, mode) + old(data[4 * DigestWords(mode)..])
      ensures forall i :: (if mode == SHA256 then 32 else 28) <= i < data.Length ==> data[..][i] == old(data[..])[i]
    {
      ghost var was := data[..];
      assert Partly(data, 0, was);
      StoreDigestWord(data, 0, was);
      StoreDigestWord(data, 1, was);
      StoreDigestWord(data, 2, was);
      StoreDigestWord(data, 3, was);
      StoreDigestWord(data, 4, was);
      StoreDigestWord(data, 5, was);
      StoreDigestWord(data, 6, was);
      if mode == SHA256 {
        StoreDigestWord(data, 7, was);
      }
      assert Partly(data, DigestWords(mode), was);
      TailKept(data[..], was, DigestBytes(DIGEST, mode));
    }
  }
}
