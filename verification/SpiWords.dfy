/**
 * The SPI transfers of Source/dev/spi.c: one to four bytes packed into a transmit word and unpacked from a receive word.
 * The far end is any device: what it answers is a function of the transfers so far.
 */
module SpiWords {
  import opened Words

  const SIZES: nat := 4   // WS is 0..3, for one to four bytes

  /** The word `SpiWrite` packs: the first byte lowest. */
  function FirstLow(b: seq<Byte>): bv32
    requires 1 <= |b| <= SIZES
  {
    if |b| == 1 then b[0] as bv32
    else if |b| == 2 then ((b[1] as bv32) << 8) | (b[0] as bv32)
    else if |b| == 3 then ((b[2] as bv32) << 16) | ((b[1] as bv32) << 8) | (b[0] as bv32)
    else ((b[3] as bv32) << 24) | ((b[2] as bv32) << 16) | ((b[1] as bv32) << 8) | (b[0] as bv32)
  }

  /** The word `SpiRW` packs: the first byte highest. */
  function FirstHigh(b: seq<Byte>): bv32
    requires 1 <= |b| <= SIZES
  {
    if |b| == 1 then b[0] as bv32
    else if |b| == 2 then ((b[0] as bv32) << 8) | (b[1] as bv32)
    else if |b| == 3 then ((b[0] as bv32) << 16) | ((b[1] as bv32) << 8) | (b[2] as bv32)
    else ((b[0] as bv32) << 24) | ((b[1] as bv32) << 16) | ((b[2] as bv32) << 8) | (b[3] as bv32)
  }

  function Byte0(w: bv32): Byte { (w & 0xFF) as Byte }
  function Byte1(w: bv32): Byte { ((w & 0xFF00) >> 8) as Byte }
  function Byte2(w: bv32): Byte { ((w & 0xFF_0000) >> 16) as Byte }
  function Byte3(w: bv32): Byte { ((w & 0xFF00_0000) >> 24) as Byte }

  /** The bytes `SpiRead` and `SpiRW` both unpack: the lowest first. */
  function Unpacked(w: bv32, n: nat): (b: seq<Byte>)
    requires 1 <= n <= SIZES
    ensures |b| == n
  {
    [Byte0(w), Byte1(w), Byte2(w), Byte3(w)][..n]
  }

  function Reversed(b: seq<Byte>): (r: seq<Byte>)
    ensures |r| == |b| && forall i :: 0 <= i < |b| ==> r[i] == b[|b| - 1 - i]
  {
    seq(|b|, i requires 0 <= i < |b| => b[|b| - 1 - i])
  }

  /** Where the bytes of a written word go: the first lowest, zero above the last. */
  lemma LowBytes(b: seq<Byte>)
    requires 1 <= |b| <= SIZES
    ensures FirstLow(b) & 0xFF == b[0] as bv32
    ensures (FirstLow(b) >> 8) & 0xFF == if |b| > 1 then b[1] as bv32 else 0
    ensures (FirstLow(b) >> 16) & 0xFF == if |b| > 2 then b[2] as bv32 else 0
    ensures FirstLow(b) >> 24 == if |b| > 3 then b[3] as bv32 else 0
  {
  }

  /** And of an exchanged word: the last lowest, the first highest. */
  lemma HighBytes(b: seq<Byte>)
    requires 1 <= |b| <= SIZES
    ensures FirstHigh(b) & 0xFF == b[|b| - 1] as bv32
    ensures (FirstHigh(b) >> 8) & 0xFF == if |b| > 1 then b[|b| - 2] as bv32 else 0
    ensures (FirstHigh(b) >> 16) & 0xFF == if |b| > 2 then b[|b| - 3] as bv32 else 0
    ensures FirstHigh(b) >> 24 == if |b| > 3 then b[0] as bv32 else 0
  {
  }

  lemma HighIsLowReversed(b: seq<Byte>)
    requires 1 <= |b| <= SIZES
    ensures FirstHigh(b) == FirstLow(Reversed(b))
  {
  }

  /** Writing bytes and reading the same word back returns them in order, for every word size. */
  lemma WriteThenRead(b: seq<Byte>)
    requires 1 <= |b| <= SIZES
    ensures Unpacked(FirstLow(b), |b|) == b
  {
  }

  /** An exchange whose word comes straight back returns the bytes reversed. */
  lemma ExchangeReverses(b: seq<Byte>)
    requires 1 <= |b| <= SIZES
    ensures Unpacked(FirstHigh(b), |b|) == Reversed(b)
  {
  }

  /** So an exchange sends the word that a write sends exactly when the bytes read the same both ways. */
  lemma SameWordIff(b: seq<Byte>)
    requires 1 <= |b| <= SIZES
    ensures FirstHigh(b) == FirstLow(b) <==> Reversed(b) == b
  {
    HighIsLowReversed(b);
    WriteThenRead(b);
    ExchangeReverses(b);
  }

  /** A transfer: bit 0 of `rw` sends the word, bit 1 asks for an answer. */
  datatype Transfer = Transfer(rw: nat, word: bv32)

  /** The last word sent in a history, 0 if there is none. */
  function LastSent(h: seq<Transfer>): bv32 {
    if h == [] then 0 else if h[|h| - 1].rw % 2 == 1 then h[|h| - 1].word else LastSent(h[..|h| - 1])
  }

  /** A device that keeps the last word sent to it and answers with it. */
  ghost predicate Echoes(answer: seq<Transfer> -> bv32) { forall h :: answer(h) == LastSent(h) }

  lemma LastSentPush(h: seq<Transfer>, t: Transfer)
    ensures LastSent(h + [t]) == if t.rw % 2 == 1 then t.word else LastSent(h)
  {
    assert (h + [t])[..|h|] == h;
  }

  /** A channel and the device at its far end. */
  class Channel {
    const answer: seq<Transfer> -> bv32
    var WS: nat
    var TX_DAT: bv32
    var RX_DAT: bv32
    var RW: nat
    var GO: bool
    var history: seq<Transfer>

    ghost predicate Valid()
      reads this
    {
      WS < SIZES && !GO
    }

    constructor (WS: nat, answer: seq<Transfer> -> bv32)
      requires WS < SIZES
      ensures Valid() && this.WS == WS && this.answer == answer && history == []
    {
      this.WS, this.answer := WS, answer;
      TX_DAT, RX_DAT, RW, GO, history := 0, 0, 0, false, [];
    }

    /** The hardware, between two reads of GO. */
    method Engine()
      modifies this`history, this`RX_DAT, this`GO
      ensures !GO
      ensures history == if old(GO) then old(history) + [Transfer(RW, TX_DAT)] else old(history)
      ensures RX_DAT == if old(GO) && RW / 2 == 1 then answer(history) else old(RX_DAT)
    {
      if GO {
        history := history + [Transfer(RW, TX_DAT)];
        if RW / 2 == 1 { RX_DAT := answer(history); }
      }
      GO := false;
    }

    /** `RW = rw; GO = 1; while (GO);` */
    method Run(rw: nat)
      requires !GO
      modifies this`RW, this`history, this`RX_DAT, this`GO
      ensures !GO && history == old(history) + [Transfer(rw, TX_DAT)]
      ensures RX_DAT == if rw / 2 == 1 then answer(history) else old(RX_DAT)
    {
      RW := rw;
      GO := true;
      while GO
        invariant RW == rw
        invariant GO ==> history == old(history) && RX_DAT == old(RX_DAT)
        invariant !GO ==> history == old(history) + [Transfer(rw, TX_DAT)]
        invariant !GO ==> RX_DAT == if rw / 2 == 1 then answer(history) else old(RX_DAT)
        decreases GO
      {
        Engine();
      }
    }

    /** The unpacking at the end of `SpiRead` and `SpiRW`. */
    method Unpack(dat: array<Byte>)
      requires Valid() && dat.Length > WS
      modifies dat
      ensures dat[..] == Unpacked(RX_DAT, WS + 1) + old(dat[WS + 1..])
    {
      Put(dat, [Byte0(RX_DAT), Byte1(RX_DAT), Byte2(RX_DAT), Byte3(RX_DAT)]);
    }

    method Put(dat: array<Byte>, b: seq<Byte>)
      requires Valid() && dat.Length > WS && |b| == SIZES
      modifies dat
      ensures dat[..] == b[..WS + 1] + old(dat[WS + 1..])
    {
      dat[0] := b[0];
      if WS > 0 { dat[1] := b[1]; }
      if WS > 1 { dat[2] := b[2]; }
      if WS > 2 { dat[3] := b[3]; }
      assert dat[..WS + 1] == b[..WS + 1];
    }

    /** `SpiWrite`. */
    method Write(dat: array<Byte>)
      requires Valid() && dat.Length > WS
      modifies this
      ensures Valid() && WS == old(WS) && RX_DAT == old(RX_DAT)
      ensures history == old(history) + [Transfer(1, FirstLow(dat[..WS + 1]))]
    {
      TX_DAT := FirstLow(dat[..WS + 1]);
      Run(1);
    }

    /** `SpiRead`: the answer's low bytes, lowest first; the word that happens to be in TX_DAT is not sent. */
    method Read(dat: array<Byte>)
      requires Valid() && dat.Length > WS
      modifies this, dat
      ensures Valid() && WS == old(WS) && history == old(history) + [Transfer(2, old(TX_DAT))]
      ensures dat[..] == Unpacked(answer(history), WS + 1) + old(dat[WS + 1..])
    {
      Run(2);
      Unpack(dat);
    }

    /** `SpiRW`: one transfer both ways. From a device that echoes, the bytes come back reversed. */
    method Exchange(wr: array<Byte>, rd: array<Byte>)
      requires Valid() && wr.Length > WS && rd.Length > WS
      modifies this, rd
      ensures Valid() && WS == old(WS) && history == old(history) + [Transfer(3, FirstHigh(old(wr[..WS + 1])))]
      ensures rd[..] == Unpacked(answer(history), WS + 1) + old(rd[WS + 1..])
      ensures Echoes(answer) ==> rd[..] == Reversed(old(wr[..WS + 1])) + old(rd[WS + 1..])
    {
      ghost var b := wr[..WS + 1];
      TX_DAT := FirstHigh(wr[..WS + 1]);
      LastSentPush(history, Transfer(3, FirstHigh(b)));
      Run(3);
      Unpack(rd);
      ExchangeReverses(b);
    }

    /** A write and then a read; from a device that echoes, the bytes come back in order. */
    method WriteRead(wr: array<Byte>, rd: array<Byte>)
      requires Valid() && wr.Length > WS && rd.Length > WS
      modifies this, rd
      ensures Valid() && rd[..] == Unpacked(answer(history), WS + 1) + old(rd[WS + 1..])
      ensures Echoes(answer) ==> rd[..] == old(wr[..WS + 1]) + old(rd[WS + 1..])
    {
      ghost var h, w := history, FirstLow(wr[..WS + 1]);
      WriteThenRead(wr[..WS + 1]);
      Write(wr);
      LastSentPush(h, Transfer(1, w));
      LastSentPush(history, Transfer(2, TX_DAT));
      Read(rd);
    }
  }
}
