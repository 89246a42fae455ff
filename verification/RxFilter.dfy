/**
 * The Ethernet receive-filter table of Source/dev/eth.c: 31 slots used as a bounded multiset of MAC
 * addresses, and a 32nd slot reserved for the interface's own address.
 */
module RxFilter {
  import opened Words

  const SLOTS: nat := 31   // ETH_RXFILTER_CNT
  const OWN: nat := 31

  /** A MAC address, `addr[0]` to `addr[5]` of the driver. */
  datatype Mac = Mac(a0: Byte, a1: Byte, a2: Byte, a3: Byte, a4: Byte, a5: Byte)

  /** One table entry as the registers hold it. */
  datatype Slot = Slot(en: bool, hi: bv16, lo: bv32)

  const EMPTY: Slot := Slot(false, 0, 0)

  // ---------------------------------------------------------------- packing

  function Hi(m: Mac): bv16 { ((m.a0 as bv16) << 8) | (m.a1 as bv16) }
  function Lo(m: Mac): bv32 { ((m.a2 as bv32) << 24) | ((m.a3 as bv32) << 16) | ((m.a4 as bv32) << 8) | (m.a5 as bv32) }

  /** The bytes `EthRxFilterList` prints for a slot. */
  function Listed(s: Slot): Mac {
    Mac(((s.hi >> 8) & 0xFF) as Byte, (s.hi & 0xFF) as Byte,
     ((s.lo >> 24) & 0xFF) as Byte, ((s.lo >> 16) & 0xFF) as Byte, ((s.lo >> 8) & 0xFF) as Byte, (s.lo & 0xFF) as Byte)
  }

  /** Listing what was packed gives the address back. */
  lemma PackThenList(m: Mac, en: bool)
    ensures Listed(Slot(en, Hi(m), Lo(m))) == m
  {
  }

  /** Packing what was listed gives the slot back. */
  lemma ListThenPack(s: Slot)
    ensures Hi(Listed(s)) == s.hi && Lo(Listed(s)) == s.lo
  {
  }

  /** Which byte goes where: the first address byte is the top byte of the 16-bit field, the third that of the 32-bit field. */
  lemma FieldBytes(m: Mac)
    ensures (Hi(m) >> 8) as Byte == m.a0 && (Hi(m) & 0xFF) as Byte == m.a1
    ensures (Lo(m) >> 24) as Byte == m.a2 && ((Lo(m) >> 16) & 0xFF) as Byte == m.a3
    ensures ((Lo(m) >> 8) & 0xFF) as Byte == m.a4 && (Lo(m) & 0xFF) as Byte == m.a5
  {
  }

  // ---------------------------------------------------------------- the table as a value

  /** The 32 entries; entries 0..30 are the filter, entry 31 is the reserved one. */
  datatype Table = Table(slots: seq<Slot>) {
    predicate Valid() { |slots| == SLOTS + 1 }
    function Put(k: nat, s: Slot): Table requires k < |slots| { Table(slots[k := s]) }
  }

  /** The table after a hardware reset. */
  function Reset(): (t: Table)
    ensures t.Valid() && forall i :: 0 <= i <= SLOTS ==> t.slots[i] == EMPTY
  {
    Table(seq(SLOTS + 1, _ => EMPTY))
  }

  predicate Matches(s: Slot, m: Mac) { s.en && s.hi == Hi(m) && s.lo == Lo(m) }

  /** The first free slot, or 31. */
  function FirstFree(t: Table, i: nat): (k: nat)
    requires t.Valid() && i <= SLOTS
    ensures i <= k <= SLOTS && (k < SLOTS ==> !t.slots[k].en) && forall j :: i <= j < k ==> t.slots[j].en
    decreases SLOTS - i
  {
    if i == SLOTS || !t.slots[i].en then i else FirstFree(t, i + 1)
  }

  /** The first enabled slot with the address m, or 31. */
  function FirstMatch(t: Table, m: Mac, i: nat): (k: nat)
    requires t.Valid() && i <= SLOTS
    ensures i <= k <= SLOTS && (k < SLOTS ==> Matches(t.slots[k], m)) && forall j :: i <= j < k ==> !Matches(t.slots[j], m)
    decreases SLOTS - i
  {
    if i == SLOTS || Matches(t.slots[i], m) then i else FirstMatch(t, m, i + 1)
  }

  function Inserted(t: Table, m: Mac): (r: Table)
    requires t.Valid()
    ensures r.Valid()
  {
    var k := FirstFree(t, 0);
    if k < SLOTS then t.Put(k, Slot(true, Hi(m), Lo(m))) else t
  }

  function Deleted(t: Table, m: Mac): (r: Table)
    requires t.Valid()
    ensures r.Valid()
  {
    var k := FirstMatch(t, m, 0);
    if k < SLOTS then t.Put(k, EMPTY) else t
  }

  function WithOwn(t: Table, m: Mac): (r: Table)
    requires t.Valid()
    ensures r.Valid()
  {
    t.Put(OWN, Slot(true, Hi(m), Lo(m)))
  }

  /** What a slot contributes: its address when enabled. */
  datatype Cell = Free | Holds(m: Mac)

  function View(s: Slot): Cell { if s.en then Holds(Listed(s)) else Free }

  function Cells(t: Table): (c: seq<Cell>)
    requires t.Valid()
    ensures |c| == SLOTS && forall i :: 0 <= i < SLOTS ==> c[i] == View(t.slots[i])
  {
    seq(SLOTS, i requires 0 <= i < SLOTS => View(t.slots[i]))
  }

  function One(c: Cell): multiset<Mac> { if c.Holds? then multiset{c.m} else multiset{} }

  /** The addresses in a sequence of cells. */
  function Bag(c: seq<Cell>): multiset<Mac> {
    if c == [] then multiset{} else Bag(c[..|c| - 1]) + One(c[|c| - 1])
  }

  /** The multiset a table stands for. */
  function Contents(t: Table): multiset<Mac>
    requires t.Valid()
  {
    Bag(Cells(t))
  }

  lemma Unpacked(s: Slot, m: Mac)
    requires s.hi == Hi(m) && s.lo == Lo(m)
    ensures Listed(s) == m
  {
  }

  /** The delete routine's comparison of two packed words is equality of addresses. */
  lemma MatchesIff(s: Slot, m: Mac)
    ensures Matches(s, m) <==> View(s) == Holds(m)
  {
    if Matches(s, m) {
      Unpacked(s, m);
    } else if View(s) == Holds(m) {
      ListThenPack(s);
    }
  }

  lemma CellsPut(t: Table, k: nat, s: Slot)
    requires t.Valid() && k <= SLOTS
    ensures Cells(t.Put(k, s)) == if k < SLOTS then Cells(t)[k := View(s)] else Cells(t)
  {
  }

  lemma BagPush(c: seq<Cell>, v: Cell)
    ensures Bag(c + [v]) == Bag(c) + One(v)
  {
  }

  /** Replacing one cell exchanges its address. */
  lemma {:induction false} BagPut(c: seq<Cell>, k: nat, v: Cell)
    requires k < |c|
    ensures Bag(c[k := v]) + One(c[k]) == Bag(c) + One(v)
  {
    var n := |c| - 1;
    var front := c[..n];
    assert c == front + [c[n]];
    BagPush(front, c[n]);
    if k == n {
      assert c[k := v] == front + [v];
      BagPush(front, v);
      Exchange(Bag(front), One(v), One(c[k]));
    } else {
      assert c[k := v] == front[k := v] + [c[n]];
      BagPush(front[k := v], c[n]);
      BagPut(front, k, v);
      Shift(Bag(front[k := v]), One(c[k]), Bag(front), One(v), One(c[n]));
    }
  }

  lemma Exchange(a: multiset<Mac>, b: multiset<Mac>, c: multiset<Mac>)
    ensures (a + b) + c == (a + c) + b
  {
  }

  lemma Shift(a: multiset<Mac>, b: multiset<Mac>, c: multiset<Mac>, d: multiset<Mac>, e: multiset<Mac>)
    requires a + b == c + d
    ensures (a + e) + b == (c + e) + d
  {
    Exchange(a, e, b);
    Exchange(c, e, d);
  }

  lemma {:induction false} BagSize(c: seq<Cell>)
    ensures |Bag(c)| <= |c|
    ensures |Bag(c)| == |c| <==> Free !in c
  {
    if c != [] {
      var n := |c| - 1;
      BagSize(c[..n]);
      assert c == c[..n] + [c[n]];
      SizeOf(Bag(c[..n]), c[n]);
    }
  }

  lemma SizeOf(a: multiset<Mac>, c: Cell)
    ensures |a + One(c)| == |a| + if c.Holds? then 1 else 0
  {
  }

  lemma {:induction false} BagIff(c: seq<Cell>, m: Mac)
    ensures m in Bag(c) <==> Holds(m) in c
  {
    if c != [] {
      var n := |c| - 1;
      BagIff(c[..n], m);
      assert c == c[..n] + [c[n]];
    }
  }

  lemma FreeIff(t: Table)
    requires t.Valid()
    ensures FirstFree(t, 0) < SLOTS <==> Free in Cells(t)
  {
  }

  lemma FoundIff(t: Table, m: Mac)
    requires t.Valid()
    ensures FirstMatch(t, m, 0) < SLOTS <==> Holds(m) in Cells(t)
  {
    var k := FirstMatch(t, m, 0);
    if k < SLOTS {
      MatchesIff(t.slots[k], m);
      assert Cells(t)[k] == Holds(m);
    } else {
      forall j | 0 <= j < SLOTS ensures Cells(t)[j] != Holds(m) {
        MatchesIff(t.slots[j], m);
      }
    }
  }

  /** Putting an address into a free slot adds it. */
  lemma FillSlot(t: Table, k: nat, m: Mac)
    requires t.Valid() && k < SLOTS && !t.slots[k].en
    ensures Contents(t.Put(k, Slot(true, Hi(m), Lo(m)))) == Contents(t) + multiset{m}
  {
    var s := Slot(true, Hi(m), Lo(m));
    PackThenList(m, true);
    FillCell(Cells(t), k, m);
    CellsPut(t, k, s);
  }

  lemma FillCell(c: seq<Cell>, k: nat, m: Mac)
    requires k < |c| && c[k] == Free
    ensures Bag(c[k := Holds(m)]) == Bag(c) + multiset{m}
  {
    BagPut(c, k, Holds(m));
  }

  /** Clearing a slot with the address takes one copy away. */
  lemma ClearSlot(t: Table, k: nat, m: Mac)
    requires t.Valid() && k < SLOTS && Matches(t.slots[k], m)
    ensures Contents(t.Put(k, EMPTY)) == Contents(t) - multiset{m}
  {
    MatchesIff(t.slots[k], m);
    ClearCell(Cells(t), k, m);
    CellsPut(t, k, EMPTY);
  }

  lemma ClearCell(c: seq<Cell>, k: nat, m: Mac)
    requires k < |c| && c[k] == Holds(m)
    ensures Bag(c[k := Free]) == Bag(c) - multiset{m}
  {
    BagPut(c, k, Free);
    TakeAway(Bag(c[k := Free]), Bag(c), m);
  }

  lemma TakeAway(a: multiset<Mac>, b: multiset<Mac>, m: Mac)
    requires a + multiset{m} == b
    ensures a == b - multiset{m}
  {
  }

  /** Insertion succeeds iff fewer than 31 addresses are held, and then adds exactly one copy. */
  lemma InsertAddsOne(t: Table, m: Mac)
    requires t.Valid()
    ensures FirstFree(t, 0) < SLOTS <==> |Contents(t)| < SLOTS
    ensures |Contents(t)| <= SLOTS
    ensures Contents(Inserted(t, m)) == if |Contents(t)| < SLOTS then Contents(t) + multiset{m} else Contents(t)
    ensures Inserted(t, m).slots[OWN] == t.slots[OWN]
  {
    BagSize(Cells(t));
    FreeIff(t);
    var k := FirstFree(t, 0);
    if k < SLOTS { FillSlot(t, k, m); }
  }

  lemma DeletedContents(t: Table, m: Mac)
    requires t.Valid() && (FirstMatch(t, m, 0) < SLOTS <==> m in Contents(t))
    ensures Contents(Deleted(t, m)) == Contents(t) - multiset{m}
  {
    var k := FirstMatch(t, m, 0);
    if k < SLOTS { ClearSlot(t, k, m); }
  }

  /** Deletion succeeds iff the address is held, and then removes exactly one copy. */
  lemma DeleteRemovesOne(t: Table, m: Mac)
    requires t.Valid()
    ensures FirstMatch(t, m, 0) < SLOTS <==> m in Contents(t)
    ensures Contents(Deleted(t, m)) == Contents(t) - multiset{m}
    ensures Deleted(t, m).slots[OWN] == t.slots[OWN]
  {
    BagIff(Cells(t), m);
    FoundIff(t, m);
    DeletedContents(t, m);
  }

  /** Inserting into a table with room and deleting the same address restores the multiset, though maybe not the slots. */
  lemma InsertThenDelete(t: Table, m: Mac)
    requires t.Valid() && |Contents(t)| < SLOTS
    ensures Contents(Deleted(Inserted(t, m), m)) == Contents(t)
  {
    InsertAddsOne(t, m);
    DeleteRemovesOne(Inserted(t, m), m);
  }

  // ---------------------------------------------------------------- call sequences from reset

  datatype Call = Insert(m: Mac) | Delete(m: Mac) | Own(m: Mac)

  function After(t: Table, c: Call): (r: Table)
    requires t.Valid()
    ensures r.Valid()
  {
    match c
    case Insert(m) => Inserted(t, m)
    case Delete(m) => Deleted(t, m)
    case Own(m) => WithOwn(t, m)
  }

  function AfterAll(calls: seq<Call>): (r: Table)
    ensures r.Valid()
  {
    if calls == [] then Reset() else After(AfterAll(calls[..|calls| - 1]), calls[|calls| - 1])
  }

  /** The bounded multiset the calls describe. */
  function Held(calls: seq<Call>): multiset<Mac> {
    if calls == [] then multiset{}
    else
      var h, c := Held(calls[..|calls| - 1]), calls[|calls| - 1];
      if c.Insert? then (if |h| < SLOTS then h + multiset{c.m} else h)
      else if c.Delete? then h - multiset{c.m}
      else h
  }

  /** Every disabled slot of the table holds the zero address. */
  ghost predicate Clean(t: Table)
    requires t.Valid()
  {
    forall i :: 0 <= i < SLOTS && !t.slots[i].en ==> t.slots[i] == EMPTY
  }

  lemma {:induction false} AllFree(c: seq<Cell>)
    requires forall i :: 0 <= i < |c| ==> c[i] == Free
    ensures Bag(c) == multiset{}
  {
    if c != [] { AllFree(c[..|c| - 1]); }
  }

  lemma ContentsAfter(t: Table, c: Call)
    requires t.Valid()
    ensures Contents(After(t, c)) ==
            if c.Insert? then (if |Contents(t)| < SLOTS then Contents(t) + multiset{c.m} else Contents(t))
            else if c.Delete? then Contents(t) - multiset{c.m}
            else Contents(t)
  {
    match c
    case Insert(m) => InsertAddsOne(t, m);
    case Delete(m) => DeleteRemovesOne(t, m);
    case Own(m) => CellsPut(t, OWN, Slot(true, Hi(m), Lo(m)));
  }

  lemma CleanAfter(t: Table, c: Call)
    requires t.Valid() && Clean(t)
    ensures Clean(After(t, c))
  {
  }

  /** After any calls the table holds the described multiset, at most 31 addresses, and disabled slots are zero. */
  lemma {:induction false} TableRefinesMultiset(calls: seq<Call>)
    ensures var t := AfterAll(calls); Contents(t) == Held(calls) && |Held(calls)| <= SLOTS && Clean(t)
  {
    if calls == [] {
      AllFree(Cells(Reset()));
    } else {
      var before := calls[..|calls| - 1];
      TableRefinesMultiset(before);
      ContentsAfter(AfterAll(before), calls[|calls| - 1]);
      CleanAfter(AfterAll(before), calls[|calls| - 1]);
      BagSize(Cells(AfterAll(calls)));
    }
  }

  // ---------------------------------------------------------------- the interface's own address

  /** An own address was set, and the last one was m. */
  predicate LastOwn(calls: seq<Call>, m: Mac) {
    calls != [] &&
    var c := calls[|calls| - 1];
    if c.Own? then c.m == m else LastOwn(calls[..|calls| - 1], m)
  }

  predicate NeverOwn(calls: seq<Call>) { forall c :: c in calls ==> !c.Own? }

  lemma OwnStep(t: Table, c: Call)
    requires t.Valid()
    ensures c.Own? ==> After(t, c).slots[31].en && Listed(After(t, c).slots[31]) == c.m
    ensures !c.Own? ==> After(t, c).slots[31] == t.slots[31]
  {
    match c
    case Insert(m) => InsertAddsOne(t, m);
    case Delete(m) => DeleteRemovesOne(t, m);
    case Own(m) => PackThenList(m, true);
  }

  /** Slot 31 is empty until an own address is set, and from then on enabled with the last one set. */
  lemma {:induction false} OwnSlotIsLastOwn(calls: seq<Call>)
    ensures NeverOwn(calls) ==> AfterAll(calls).slots[31] == Slot(false, 0, 0)
    ensures forall m :: LastOwn(calls, m) ==> AfterAll(calls).slots[31].en && Listed(AfterAll(calls).slots[31]) == m
    ensures !NeverOwn(calls) ==> LastOwn(calls, Listed(AfterAll(calls).slots[31]))
  {
    if calls != [] {
      var before, c := calls[..|calls| - 1], calls[|calls| - 1];
      assert calls == before + [c];
      OwnSlotIsLastOwn(before);
      OwnStep(AfterAll(before), c);
      assert NeverOwn(calls) <==> NeverOwn(before) && !c.Own?;
    }
  }

  // ---------------------------------------------------------------- the registers

  lemma OneMore(calls: seq<Call>, c: Call)
    ensures AfterAll(calls + [c]) == After(AfterAll(calls), c)
  {
    assert (calls + [c])[..|calls|] == calls;
  }

  class FilterTable {
    const slots: array<Slot>
    ghost var calls: seq<Call>

    ghost predicate Shape() { slots.Length == SLOTS + 1 }

    /** The registers are what the calls so far make of the reset state. */
    ghost predicate Valid()
      reads this, slots
    {
      Shape() && Snapshot() == AfterAll(calls)
    }

    ghost function Snapshot(): (t: Table)
      reads slots
      requires Shape()
      ensures t.Valid()
    {
      Table(slots[..])
    }

    constructor ()
      ensures Valid() && fresh(slots) && calls == []
    {
      slots := new Slot[SLOTS + 1](_ => EMPTY);
      calls := [];
    }

    /** `EthRxFilterMacAdr`. */
    method SetOwn(addr: Mac)
      requires Valid()
      modifies this, slots
      ensures Valid() && calls == old(calls) + [Own(addr)]
      ensures Snapshot() == WithOwn(old(Snapshot()), addr)
      ensures slots[31].en && Listed(slots[31]) == addr && forall k :: 0 <= k < 31 ==> slots[k] == old(slots[k])
    {
      PackThenList(addr, true);
      slots[OWN] := slots[OWN].(en := true);
      slots[OWN] := slots[OWN].(hi := Hi(addr));
      slots[OWN] := slots[OWN].(lo := Lo(addr));
      OneMore(calls, Own(addr));
      calls := calls + [Own(addr)];
    }

    /** `EthRxFilterInsert`. */
    method Insert(addr: Mac) returns (ok: bool)
      requires Valid()
      modifies this, slots
      ensures Valid() && calls == old(calls) + [Call.Insert(addr)]
      ensures Snapshot() == Inserted(old(Snapshot()), addr)
      ensures ok <==> |old(Contents(Snapshot()))| < SLOTS
      ensures Contents(Snapshot()) == if ok then old(Contents(Snapshot())) + multiset{addr} else old(Contents(Snapshot()))
    {
      InsertAddsOne(Snapshot(), addr);
      ok := FillFirstFree(addr);
      OneMore(calls, Call.Insert(addr));
      calls := calls + [Call.Insert(addr)];
    }

    /** The loop over the slots. */
    method FillFirstFree(addr: Mac) returns (ok: bool)
      requires Shape()
      modifies slots
      ensures Snapshot() == Inserted(old(Snapshot()), addr)
      ensures ok <==> FirstFree(old(Snapshot()), 0) < SLOTS
    {
      ghost var t := Snapshot();
      for i := 0 to SLOTS
        invariant Snapshot() == t && FirstFree(t, 0) == FirstFree(t, i)
      {
        if !slots[i].en {
          slots[i] := slots[i].(en := true);
          slots[i] := slots[i].(hi := Hi(addr));
          slots[i] := slots[i].(lo := Lo(addr));
          return true;
        }
      }
      return false;
    }

    /** `EthRxFilterDelete`. */
    method Delete(addr: Mac) returns (ok: bool)
      requires Valid()
      modifies this, slots
      ensures Valid() && calls == old(calls) + [Call.Delete(addr)]
      ensures Snapshot() == Deleted(old(Snapshot()), addr)
      ensures ok <==> addr in old(Contents(Snapshot()))
      ensures Contents(Snapshot()) == old(Contents(Snapshot())) - multiset{addr}
    {
      DeleteRemovesOne(Snapshot(), addr);
      ok := ClearFirstMatch(addr);
      OneMore(calls, Call.Delete(addr));
      calls := calls + [Call.Delete(addr)];
    }

    /** The loop over the slots. */
    method ClearFirstMatch(addr: Mac) returns (ok: bool)
      requires Shape()
      modifies slots
      ensures Snapshot() == Deleted(old(Snapshot()), addr)
      ensures ok <==> FirstMatch(old(Snapshot()), addr, 0) < SLOTS
    {
      ghost var t := Snapshot();
      var hi, lo := Hi(addr), Lo(addr);
      for i := 0 to SLOTS
        invariant Snapshot() == t && FirstMatch(t, addr, 0) == FirstMatch(t, addr, i)
      {
        if slots[i].en {
          if slots[i].hi == hi && slots[i].lo == lo {
            slots[i] := slots[i].(hi := 0);
            slots[i] := slots[i].(lo := 0);
            slots[i] := slots[i].(en := false);
            assert slots[..] == t.slots[i := EMPTY];
            return true;
          }
        }
      }
      return false;
    }

    /** `EthRxFilterList`, without its printing. */
    method List() returns (rows: seq<(bool, Mac)>)
      requires Shape()
      ensures |rows| == SLOTS + 1
      ensures forall i :: 0 <= i <= SLOTS ==> rows[i] == (slots[i].en, Listed(slots[i]))
    {
      rows := [];
      for i := 0 to SLOTS + 1
        invariant |rows| == i
        invariant forall k :: 0 <= k < i ==> rows[k] == (slots[k].en, Listed(slots[k]))
      {
        rows := rows + [(slots[i].en, Listed(slots[i]))];
      }
    }

    /** In the registers: slot 31, the last row of the list, is empty or enabled with the last own address set. */
    lemma OwnRow()
      requires Valid()
      ensures NeverOwn(calls) ==> slots[31] == Slot(false, 0, 0)
      ensures !NeverOwn(calls) ==> slots[31].en && LastOwn(calls, Listed(slots[31]))
    {
      OwnSlotIsLastOwn(calls);
      assert slots[31] == Snapshot().slots[31];
    }

    /** In the registers: the filter holds the multiset the calls describe, and disabled slots are zero. */
    lemma HoldsWhatCallsDescribe()
      requires Valid()
      ensures Contents(Snapshot()) == Held(calls) && |Held(calls)| <= SLOTS && Clean(Snapshot())
    {
      TableRefinesMultiset(calls);
    }
  }
}
