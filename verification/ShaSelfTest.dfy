/**
 * The shell's hash self test (shell_cmd_util.c): one-shot digest against chop digest of the same bytes, for one choice
 * of segment sizes. The test's random block counts are a parameter.
 */
module ShaSelfTest {
  import opened Words
  import opened Arith
  import opened ShaChop

  const ROOM: nat := 32   // sizeof(arrHwHash)
  const BLOCK: nat := 64

  function Sum(counts: seq<nat>): nat {
    if counts == [] then 0 else Sum(counts[..|counts| - 1]) + counts[|counts| - 1]
  }

  lemma {:induction false} SumPrefix(counts: seq<nat>, n: nat)
    requires n <= |counts|
    ensures Sum(counts[..n]) <= Sum(counts)
    decreases |counts|
  {
    if n < |counts| {
      assert counts[..n] == counts[..|counts| - 1][..n];
      SumPrefix(counts[..|counts| - 1], n);
    } else {
      assert counts[..n] == counts;
    }
  }

  /** What holds of the calls made so far: a begun session of whole blocks whose message is data. */
  ghost predicate Underway<S>(e: Engine<S>, calls: seq<Call>, mode: Mode, data: Bytes)
    requires e.block > 0
  {
    Begun(calls) && Message(calls) == data
    && forall i :: 0 <= i < |calls| ==> calls[i].mode == mode && |calls[i].data| % e.block == 0
  }

  lemma Push<S>(e: Engine<S>, s: State<S>, calls: seq<Call>, c: Call)
    ensures AfterAll(e, s, calls + [c]) == After(e, AfterAll(e, s, calls), c)
    ensures Message(calls + [c]) == if c.cmd == Init then c.data else Message(calls) + c.data
    ensures Begun(calls + [c]) <==> Begun(calls) || c.cmd == Init
  {
  }

  lemma WholeBlocksDivide(k: nat, b: nat)
    requires b > 0 && BLOCK % b == 0
    ensures (BLOCK * k) % b == 0
  {
    var q := BLOCK / b;
    assert BLOCK * k == (q * k) * b by { assert BLOCK == q * b; }
    DivUnique(BLOCK * k, b, q * k, 0);
  }

  lemma Cut(counts: seq<nat>, i: nat)
    requires i < |counts|
    ensures Sum(counts[..i + 1]) == Sum(counts[..i]) + counts[i] && Sum(counts[..i + 1]) <= Sum(counts)
  {
    assert counts[..i + 1][..i] == counts[..i];
    SumPrefix(counts, i + 1);
  }

  method Filled(b: Byte) returns (a: array<Byte>)
    ensures fresh(a) && a.Length == ROOM && a[..] == seq(ROOM, _ => b)
  {
    a := new Byte[ROOM](_ => b);
  }

  method SameBytes(a: array<Byte>, b: array<Byte>) returns (same: bool)
    requires a.Length == b.Length
    ensures same <==> a[..] == b[..]
  {
    for i := 0 to a.Length
      invariant a[..i] == b[..i]
    {
      if a[i] != b[i] { return false; }
    }
    return true;
  }

  /** Two buffers with different fill that receive the same digest differ exactly where the digest ends short. */
  lemma FillShows(d: Digest, mode: Mode, x: Byte, y: Byte)
    requires x != y
    ensures var n := 4 * DigestWords(mode);
            DigestBytes(d, mode) + seq(ROOM, _ => x)[n..] == DigestBytes(d, mode) + seq(ROOM, _ => y)[n..] <==> mode == SHA256
  {
    var n := 4 * DigestWords(mode);
    var p, q := seq(ROOM, _ => x)[n..], seq(ROOM, _ => y)[n..];
    var a, b := DigestBytes(d, mode) + p, DigestBytes(d, mode) + q;
    if mode == SHA256 {
      assert p == q == [];
    } else {
      assert a[28] == x && b[28] == y;
    }
  }

  function Piece(cmd: Cmd, mode: Mode, src: Bytes, at: nat, n: nat): Call
    requires at + n <= |src|
  {
    Call(cmd, mode, src[at..at + n])
  }

  lemma PushPiece<S>(e: Engine<S>, s: State<S>, calls: seq<Call>, cmd: Cmd, mode: Mode, src: Bytes, at: nat, n: nat)
    requires e.block > 0 && at + n <= |src| && Underway(e, calls, mode, src[..at]) && cmd != Init
    ensures var c := Piece(cmd, mode, src, at, n);
            AfterAll(e, s, calls + [c]) == After(e, AfterAll(e, s, calls), c)
            && Begun(calls + [c]) && Message(calls + [c]) == src[..at + n] && Regular(calls + [c], mode, e.block)
            && (n % e.block == 0 ==> Underway(e, calls + [c], mode, src[..at + n]))
  {
  }

  /** The unit and the item are where the calls bring them from s, and the calls are a session on the first `at` bytes. */
  ghost predicate Tracks<S(!new)>(unit: ShaUnit<S>, item: ChopItem, s: State<S>, calls: seq<Call>, src: Bytes, at: nat)
    reads unit, item
  {
    unit.Valid() && !unit.REQ && unit.engine.block > 0 && at <= |src|
    && unit.Served(item.tot_len) == AfterAll(unit.engine, s, calls)
    && Underway(unit.engine, calls, item.mode, src[..at])
  }

  /** Points the item at src[at..] and chops n bytes. */
  method Chop<S(!new)>(unit: ShaUnit<S>, item: ChopItem, src: Bytes, at: nat, n: nat, cmd: Cmd)
    requires unit.Valid() && !unit.REQ && at + n <= |src| && n < WRAP
    modifies unit, item
    ensures unit.Valid() && !unit.REQ && item.mode == old(item.mode)
    ensures unit.Served(item.tot_len) == After(unit.engine, old(unit.Served(item.tot_len)), Piece(cmd, old(item.mode), src, at, n))
  {
    item.base := src[at..];
    item.cmd := cmd;
    unit.ChopCalc(item, n);
    assert src[at..][..n] == src[at..at + n];
  }

  lemma FirstPiece<S>(e: Engine<S>, s: State<S>, mode: Mode, src: Bytes, n: nat)
    requires e.block > 0 && n % e.block == 0 && n <= |src|
    ensures var c := Piece(Init, mode, src, 0, n);
            AfterAll(e, s, [c]) == After(e, s, c) && Underway(e, [c], mode, src[..n])
  {
    var c := Piece(Init, mode, src, 0, n);
    Push(e, s, [], c);
    assert [] + [c] == [c] && [c][0].cmd == Init;
  }

  method ChopFirst<S(!new)>(unit: ShaUnit<S>, item: ChopItem, src: Bytes, n: nat, ghost s: State<S>) returns (ghost calls: seq<Call>)
    requires unit.Valid() && !unit.REQ && n <= |src| && n < WRAP && s == unit.Served(item.tot_len)
    requires unit.engine.block > 0 && n % unit.engine.block == 0
    modifies unit, item
    ensures Tracks(unit, item, s, calls, src, n) && item.mode == old(item.mode)
  {
    calls := [Piece(Init, item.mode, src, 0, n)];
    FirstPiece(unit.engine, s, item.mode, src, n);
    Chop(unit, item, src, 0, n, Init);
  }

  method ChopNext<S(!new)>(unit: ShaUnit<S>, item: ChopItem, src: Bytes, at: nat, n: nat, ghost s: State<S>, ghost before: seq<Call>)
    returns (ghost calls: seq<Call>)
    requires Tracks(unit, item, s, before, src, at) && at + n <= |src| && n < WRAP && n % unit.engine.block == 0
    modifies unit, item
    ensures Tracks(unit, item, s, calls, src, at + n) && item.mode == old(item.mode)
  {
    calls := before + [Piece(Update, item.mode, src, at, n)];
    PushPiece(unit.engine, s, before, Update, item.mode, src, at, n);
    Chop(unit, item, src, at, n, Update);
  }

  method ChopLast<S(!new)>(unit: ShaUnit<S>, item: ChopItem, src: Bytes, at: nat, n: nat, ghost s: State<S>, ghost before: seq<Call>)
    requires Appends(unit.engine) && Tracks(unit, item, s, before, src, at) && at + n <= |src| && at + n < WRAP
    modifies unit, item
    ensures unit.Valid() && !unit.REQ && unit.DIGEST == OneShot(unit.engine, old(item.mode), src[..at + n])
  {
    LastPiece(unit.engine, s, before, item.mode, src, at, n);
    Chop(unit, item, src, at, n, Final);
    assert unit.DIGEST == unit.Served(item.tot_len).digest;
  }

  lemma LastPiece<S(!new)>(e: Engine<S>, s: State<S>, before: seq<Call>, mode: Mode, src: Bytes, at: nat, n: nat)
    requires Appends(e) && at + n <= |src| && at + n < WRAP && Underway(e, before, mode, src[..at])
    ensures After(e, AfterAll(e, s, before), Piece(Final, mode, src, at, n)).digest == OneShot(e, mode, src[..at + n])
  {
    var calls := before + [Piece(Final, mode, src, at, n)];
    PushPiece(e, s, before, Final, mode, src, at, n);
    FinishedIsOneShot(e, s, calls, mode);
  }

  /** The chop half of a case: a session over the first bytes of src, cut where the test cuts them. */
  method ChopHalf<S(!new)>(unit: ShaUnit<S>, src: Bytes, init: nat, counts: seq<nat>, final: nat, mode: Mode)
    requires unit.Valid() && !unit.REQ && Appends(unit.engine) && BLOCK % unit.engine.block == 0
    requires init % BLOCK == 0 && init + BLOCK * Sum(counts) + final <= |src| && init + BLOCK * Sum(counts) + final < WRAP
    modifies unit
    ensures unit.Valid() && !unit.REQ
    ensures unit.DIGEST == OneShot(unit.engine, mode, src[..init + BLOCK * Sum(counts) + final])
  {
    var item := new ChopItem(src, 0, mode, Init);
    ghost var s := unit.Served(item.tot_len);
    WholeBlocksDivide(init / BLOCK, unit.engine.block);
    ghost var calls := ChopFirst(unit, item, src, init, s);
    var at := init;
    for i := 0 to |counts|
      invariant at == init + BLOCK * Sum(counts[..i]) && item.mode == mode
      invariant Tracks(unit, item, s, calls, src, at)
    {
      var n := BLOCK * counts[i];
      Cut(counts, i);
      WholeBlocksDivide(counts[i], unit.engine.block);
      calls := ChopNext(unit, item, src, at, n, s, calls);
      at := at + n;
    }
    assert counts[..|counts|] == counts;
    ChopLast(unit, item, src, at, final, s, calls);
  }

  /** One case of the self test; it passes exactly in SHA-256 mode, because the 224-bit digest leaves four bytes of fill. */
  method Case<S(!new)>(unit: ShaUnit<S>, src: Bytes, init: nat, counts: seq<nat>, final: nat, mode: Mode) returns (pass: bool)
    requires unit.Valid() && !unit.REQ && Appends(unit.engine) && BLOCK % unit.engine.block == 0
    requires init % BLOCK == 0 && init + BLOCK * Sum(counts) + final <= |src| && init + BLOCK * Sum(counts) + final < WRAP
    modifies unit
    ensures unit.Valid() && !unit.REQ
    ensures pass <==> mode == SHA256
  {
    var total := init + BLOCK * Sum(counts) + final;
    var hw := Filled(0xFF);
    var chop := Filled(0);
    unit.ShotCalc(src, total, mode);
    unit.GetDigest(hw, mode);
    ghost var d := unit.DIGEST;
    ChopHalf(unit, src, init, counts, final, mode);
    unit.GetDigest(chop, mode);
    FillShows(d, mode, 0xFF, 0);
    pass := SameBytes(hw, chop);
  }
}
