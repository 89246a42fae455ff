/**
 * The cache maintenance of Source/dev/cpu/rv_utils.c and the two cached copies of Source/dev/dma.c.
 * One hart's write-back data cache holds 64-byte lines; the DMA engine reads and writes memory only.
 *
 * Hardware assumptions: flushing a line writes it back if dirty and drops it, discarding a line drops
 * it; no line is refilled during the critical section, and outstanding jobs touch no cached line.
 */
module CoherentCopy {
  import opened Words
  import opened DmaRing

  const LINE: nat := 64        // DC_BSIZE
  const DC_SIZE: nat := 16384  // 64 B x 64 sets x 4 ways

  datatype Line = Line(data: seq<Byte>, dirty: bool)

  /** A line lies inside memory, and a clean line equals memory. */
  ghost predicate Coherent(mem: seq<Byte>, cache: map<nat, Line>) {
    forall l :: l in cache ==>
      LINE * l + LINE <= |mem| && |cache[l].data| == LINE
      && (!cache[l].dirty ==> cache[l].data == mem[LINE * l..LINE * l + LINE])
  }

  /** The byte a load at address a returns. */
  function Load(mem: seq<Byte>, cache: map<nat, Line>, a: nat): Byte
    requires Coherent(mem, cache) && a < |mem|
  {
    if a / LINE in cache then cache[a / LINE].data[a % LINE] else mem[a]
  }

  /** Memory as the hart sees it. */
  function View(mem: seq<Byte>, cache: map<nat, Line>): (v: seq<Byte>)
    requires Coherent(mem, cache)
    ensures |v| == |mem|
  {
    seq(|mem|, a requires 0 <= a < |mem| => Load(mem, cache, a))
  }

  /** The lines a range operation touches: all of them from DC_SIZE up, and one even for an empty range. */
  predicate Touched(l: nat, sadr: nat, size: nat) {
    size >= DC_SIZE || l == sadr / LINE || (sadr / LINE <= l && LINE * l < sadr + size)
  }

  // Sets of lines.
  function Range(sadr: nat, size: nat): nat -> bool { (x: nat) => Touched(x, sadr, size) }
  function Between(first: nat, next: nat): nat -> bool { (x: nat) => first <= x < next }
  function In(lines: set<nat>): nat -> bool { (x: nat) => x in lines }
  function Only(l: nat): nat -> bool { (x: nat) => x == l }
  function All(): nat -> bool { (x: nat) => true }

  /** Memory and cache after the lines in `hit` were written back and dropped. */
  ghost predicate WrittenBack(mem: seq<Byte>, cache: map<nat, Line>, mem': seq<Byte>, cache': map<nat, Line>, hit: nat -> bool)
    requires Coherent(mem, cache)
  {
    && |mem'| == |mem|
    && (forall a :: 0 <= a < |mem| ==> mem'[a] == if hit(a / LINE) then Load(mem, cache, a) else mem[a])
    && cache' == map l | l in cache && !hit(l) :: cache[l]
  }

  /** Writing lines back keeps the cache coherent and changes nothing the hart sees. */
  lemma WriteBackKeepsView(mem: seq<Byte>, cache: map<nat, Line>, mem': seq<Byte>, cache': map<nat, Line>, hit: nat -> bool)
    requires Coherent(mem, cache) && WrittenBack(mem, cache, mem', cache', hit)
    ensures Coherent(mem', cache') && View(mem', cache') == View(mem, cache)
  {
  }

  /** The copy that follows yields the old view's copy iff the view outside the destination was intact. */
  lemma CopyIff(v0: seq<Byte>, v: seq<Byte>, dst: nat, src: nat, n: nat)
    requires |v| == |v0| && Fits(Copy(dst, src, n), |v0|) && v[src..src + n] == v0[src..src + n]
    ensures Apply(v, Copy(dst, src, n)) == Apply(v0, Copy(dst, src, n))
            <==> forall a :: 0 <= a < |v0| && !(dst <= a < dst + n) ==> v[a] == v0[a]
  {
    var r, r0 := Apply(v, Copy(dst, src, n)), Apply(v0, Copy(dst, src, n));
    assert forall a :: 0 <= a < |v0| && !(dst <= a < dst + n) ==> r[a] == v[a] && r0[a] == v0[a];
    assert forall a :: dst <= a < dst + n ==> r[a] == r0[a];
  }

  /** A nonempty copy whose destination consists of whole lines loses nothing, nor does one of DC_SIZE bytes or more. */
  lemma WholeLinesLoseNothing(mem: seq<Byte>, cache: map<nat, Line>, dst: nat, src: nat, n: nat)
    requires Coherent(mem, cache)
    requires (dst % LINE == 0 && n % LINE == 0 && n > 0) || n >= DC_SIZE
    ensures NoDirtyLoss(mem, cache, dst, src, n)
  {
  }

  /** An empty copy, even to a line boundary, can drop a dirty line: alignment alone is not enough. */
  lemma EmptyCopyCanLose()
    ensures exists mem, cache ::
              Coherent(mem, cache) && Fits(Copy(0, 128, 0), |mem|) && !NoDirtyLoss(mem, cache, 0, 128, 0)
  {
    var mem: seq<Byte> := seq(192, _ => 0);
    var cache := map[0 := Line(seq(LINE, _ => 1 as Byte), true)];
    assert Coherent(mem, cache);
    assert Load(mem, cache, 0) == 1 && mem[0] == 0;
    assert Touched(0 / LINE, 0, 0) && !Touched(0 / LINE, 128, 0);
  }

  // ---------------------------------------------------------------- which arguments are safe to discard

  /** Every whole line that the discard touches outside the destination is also touched by the source flush. */
  ghost predicate LinesCovered(size: nat, dst: nat, src: nat, n: nat) {
    forall a :: 0 <= a < size && !(dst <= a < dst + n) && Touched(a / LINE, dst, n) ==> Covered(a / LINE, size, src, n)
  }

  /** Line l cannot lose a dirty byte to the discard: it does not fit in memory, or the source flush writes it back. */
  predicate Covered(l: nat, size: nat, src: nat, n: nat) {
    LINE * l + LINE > size || Touched(l, src, n)
  }

  /** What a caller can check: the whole cache was flushed, or each line the destination only partly fills is covered. */
  predicate DiscardSafe(size: nat, dst: nat, src: nat, n: nat) {
    || n >= DC_SIZE
    || (n == 0 && Covered(dst / LINE, size, src, n))
    || (n > 0 && (dst % LINE == 0 || Covered(dst / LINE, size, src, n))
              && ((dst + n) % LINE == 0 || Covered((dst + n) / LINE, size, src, n)))
  }

  lemma UncoveredCanLose(mem: seq<Byte>, dst: nat, src: nat, n: nat, a: nat)
    requires a < |mem| && !(dst <= a < dst + n) && Touched(a / LINE, dst, n) && !Covered(a / LINE, |mem|, src, n)
    ensures exists cache :: Coherent(mem, cache) && !NoDirtyLoss(mem, cache, dst, src, n)
  {
    var cache := map[a / LINE := Line(seq(LINE, _ => mem[a] ^ 1), true)];
    assert Coherent(mem, cache) && Load(mem, cache, a) == mem[a] ^ 1 != mem[a];
  }

  /** The discard loses nothing in any cache state iff the lines are covered. */
  lemma SafeIffCovered(mem: seq<Byte>, dst: nat, src: nat, n: nat)
    ensures (forall cache :: Coherent(mem, cache) ==> NoDirtyLoss(mem, cache, dst, src, n)) <==> LinesCovered(|mem|, dst, src, n)
  {
    if a :| 0 <= a < |mem| && !(dst <= a < dst + n) && Touched(a / LINE, dst, n) && !Covered(a / LINE, |mem|, src, n) {
      UncoveredCanLose(mem, dst, src, n, a);
    }
  }

  /** An address outside a short destination whose line the discard touches is on one of its two end lines. */
  lemma OnAnEndLine(dst: nat, n: nat, a: nat)
    requires n < DC_SIZE && !(dst <= a < dst + n) && Touched(a / LINE, dst, n)
    ensures n == 0 ==> a / LINE == dst / LINE
    ensures n > 0 && a < dst ==> a / LINE == dst / LINE && dst % LINE != 0
    ensures n > 0 && a >= dst + n ==> a / LINE == (dst + n) / LINE && (dst + n) % LINE != 0
  {
  }

  /** And a partly filled end line does have such an address, when it lies in memory. */
  lemma EndLinesTouched(dst: nat, n: nat)
    ensures dst % LINE != 0 || n == 0 ==> Touched(dst / LINE, dst, n)
    ensures dst % LINE != 0 ==> LINE * (dst / LINE) < dst
    ensures (dst + n) % LINE != 0 && n > 0 ==> Touched((dst + n) / LINE, dst, n)
  {
  }

  lemma CoveredIffSafe(size: nat, dst: nat, src: nat, n: nat)
    requires dst + n <= size
    ensures LinesCovered(size, dst, src, n) <==> DiscardSafe(size, dst, src, n)
  {
    EndLinesTouched(dst, n);
    if DiscardSafe(size, dst, src, n) {
      forall a | 0 <= a < size && !(dst <= a < dst + n) && Touched(a / LINE, dst, n) ensures Covered(a / LINE, size, src, n) {
        if n < DC_SIZE { OnAnEndLine(dst, n, a); }
      }
    } else if n == 0 {
      assert (LINE * (dst / LINE)) / LINE == dst / LINE;
    } else if dst % LINE != 0 && !Covered(dst / LINE, size, src, n) {
      assert (LINE * (dst / LINE)) / LINE == dst / LINE;
    } else {
      assert Touched((dst + n) / LINE, dst, n);
    }
  }

  /** The arguments for which the discarding copy is an ordinary copy whatever is cached. */
  lemma SafeArguments(mem: seq<Byte>, dst: nat, src: nat, n: nat)
    requires Fits(Copy(dst, src, n), |mem|)
    ensures (forall cache :: Coherent(mem, cache) ==> NoDirtyLoss(mem, cache, dst, src, n)) <==> DiscardSafe(|mem|, dst, src, n)
  {
    SafeIffCovered(mem, dst, src, n);
    CoveredIffSafe(|mem|, dst, src, n);
  }

  lemma Below(l: nat, src: nat, n: nat)
    requires 0 < n < DC_SIZE && src + n <= LINE * l
    ensures !Touched(l, src, n)
  {
  }

  lemma Above(l: nat, src: nat, n: nat)
    requires n < DC_SIZE && LINE * l + LINE <= src
    ensures !Touched(l, src, n)
  {
  }

  lemma WholeLine(size: nat, a: nat)
    requires size % LINE == 0 && a < size
    ensures LINE * (a / LINE) + LINE <= size
  {
    var l, c := a / LINE, size / LINE;
    assert LINE * l <= a < LINE * c && size == LINE * c;
  }

  lemma NotCovered(size: nat, a: nat, src: nat, n: nat)
    requires size % LINE == 0 && a < size && 0 < n < DC_SIZE
    requires src + n <= LINE * (a / LINE) || a + LINE <= src
    ensures !Covered(a / LINE, size, src, n)
  {
    WholeLine(size, a);
    if src + n <= LINE * (a / LINE) { Below(a / LINE, src, n); } else { Above(a / LINE, src, n); }
  }

  lemma LinesInOrder(a: nat, b: nat)
    requires a <= b
    ensures LINE * (a / LINE) <= LINE * (b / LINE)
  {
  }

  lemma EndsApart(size: nat, dst: nat, src: nat, n: nat)
    requires dst + n <= size && src + n <= size && size % LINE == 0 && 0 < n < DC_SIZE
    requires src + n <= LINE * (dst / LINE) || dst + n + LINE <= src
    ensures !Covered(dst / LINE, size, src, n)
    ensures (dst + n) % LINE != 0 ==> !Covered((dst + n) / LINE, size, src, n)
  {
    NotCovered(size, dst, src, n);
    if (dst + n) % LINE != 0 {
      LinesInOrder(dst, dst + n);
      NotCovered(size, dst + n, src, n);
    }
  }

  lemma SafeWhenApart(size: nat, dst: nat, src: nat, n: nat)
    requires dst + n <= size && src + n <= size && size % LINE == 0 && 0 < n < DC_SIZE
    requires src + n <= LINE * (dst / LINE) || dst + n + LINE <= src
    ensures DiscardSafe(size, dst, src, n) <==> dst % LINE == 0 && n % LINE == 0
  {
    EndsApart(size, dst, src, n);
  }

  /** With the source elsewhere, a copy of 1 to 16383 bytes is safe iff its destination is made of whole lines. */
  lemma DistantSource(mem: seq<Byte>, dst: nat, src: nat, n: nat)
    requires Fits(Copy(dst, src, n), |mem|) && |mem| % LINE == 0 && 0 < n < DC_SIZE
    requires src + n <= LINE * (dst / LINE) || dst + n + LINE <= src
    ensures (forall cache :: Coherent(mem, cache) ==> NoDirtyLoss(mem, cache, dst, src, n))
            <==> dst % LINE == 0 && n % LINE == 0
  {
    SafeArguments(mem, dst, src, n);
    SafeWhenApart(|mem|, dst, src, n);
  }

  /** No byte of the range is cached. */
  ghost predicate Uncached(cache: map<nat, Line>, sadr: nat, size: nat) {
    forall a :: sadr <= a < sadr + size ==> a / LINE !in cache
  }

  /** On the lines that a discard alone would drop, memory is up to date outside the destination. */
  ghost predicate NoDirtyLoss(mem: seq<Byte>, cache: map<nat, Line>, dst: nat, src: nat, n: nat)
    requires Coherent(mem, cache)
  {
    forall a :: 0 <= a < |mem| && !(dst <= a < dst + n) && Touched(a / LINE, dst, n) && !Touched(a / LINE, src, n) ==>
      Load(mem, cache, a) == mem[a]
  }

  // ---------------------------------------------------------------- with jobs outstanding

  /** Memory, the hart's cache, and the jobs the engine has still to do. */
  datatype System = System(mem: seq<Byte>, cache: map<nat, Line>, queue: seq<Job>)

  /** The job touches no cached line. */
  ghost predicate Apart(cache: map<nat, Line>, j: Job) {
    Uncached(cache, j.dst, j.len) && (j.Copy? ==> Uncached(cache, j.src, j.len))
  }

  ghost predicate Sound(s: System) {
    Coherent(s.mem, s.cache) && AllFit(s.queue, |s.mem|) && forall j :: j in s.queue ==> Apart(s.cache, j)
  }

  /** What the hart will see once the outstanding jobs are done. */
  ghost function Outcome(s: System): (v: seq<Byte>)
    requires Sound(s)
    ensures |v| == |s.mem|
  {
    ApplyAll(View(s.mem, s.cache), s.queue)
  }

  /** The cached lines are unchanged in memory too. */
  ghost predicate LinesKept(mem: seq<Byte>, mem': seq<Byte>, cache: map<nat, Line>) {
    |mem'| == |mem| && forall a :: 0 <= a < |mem| && a / LINE in cache ==> mem'[a] == mem[a]
  }

  lemma UncachedJobKeepsLines(mem: seq<Byte>, cache: map<nat, Line>, j: Job)
    requires Coherent(mem, cache) && Fits(j, |mem|) && Apart(cache, j)
    ensures LinesKept(mem, Apply(mem, j), cache)
  {
  }

  lemma KeptLinesStayCoherent(mem: seq<Byte>, mem': seq<Byte>, cache: map<nat, Line>)
    requires Coherent(mem, cache) && LinesKept(mem, mem', cache)
    ensures Coherent(mem', cache)
  {
    forall l | l in cache && !cache[l].dirty ensures cache[l].data == mem'[LINE * l..LINE * l + LINE] {
      forall a | LINE * l <= a < LINE * l + LINE ensures mem'[a] == mem[a] {
        assert a / LINE == l;
      }
    }
  }

  /** A job on ranges that are not cached keeps the cache coherent and is, for the hart, that job on its own view. */
  lemma UncachedJob(mem: seq<Byte>, cache: map<nat, Line>, j: Job)
    requires Coherent(mem, cache) && Fits(j, |mem|) && Apart(cache, j)
    ensures Coherent(Apply(mem, j), cache) && LinesKept(mem, Apply(mem, j), cache)
    ensures View(Apply(mem, j), cache) == Apply(View(mem, cache), j)
  {
    UncachedJobKeepsLines(mem, cache, j);
    KeptLinesStayCoherent(mem, Apply(mem, j), cache);
    var mem', v := Apply(mem, j), View(mem, cache);
    var v' := Apply(v, j);
    forall a | 0 <= a < |mem| ensures View(mem', cache)[a] == v'[a] {
      if j.dst <= a < j.dst + j.len {
        if j.Copy? {
          assert v[j.src + (a - j.dst)] == mem[j.src + (a - j.dst)];
          assert mem'[a] == mem[j.src + (a - j.dst)];
        }
      } else {
        assert mem'[a] == mem[a] && v'[a] == v[a];
      }
    }
  }

  /** The system after the engine has done its first k jobs. */
  ghost function Done(s: System, k: nat): System
    requires AllFit(s.queue, |s.mem|) && k <= |s.queue|
  {
    ApplySplit(s.mem, s.queue, k);
    System(ApplyAll(s.mem, s.queue[..k]), s.cache, s.queue[k..])
  }

  lemma OneDone(s: System)
    requires Sound(s) && s.queue != []
    ensures Fits(s.queue[0], |s.mem|)
    ensures Sound(Advance(s)) && LinesKept(s.mem, Advance(s).mem, s.cache) && Outcome(Advance(s)) == Outcome(s)
  {
    var j := s.queue[0];
    assert j in s.queue;
    UncachedJob(s.mem, s.cache, j);
    assert forall i :: i in s.queue[1..] ==> i in s.queue;
  }

  /** The system after one job. */
  function Advance(s: System): System
    requires s.queue != [] && Fits(s.queue[0], |s.mem|)
  {
    System(Apply(s.mem, s.queue[0]), s.cache, s.queue[1..])
  }

  lemma DoneStep(s: System, k: nat)
    requires AllFit(s.queue, |s.mem|) && 0 < k <= |s.queue|
    ensures Fits(s.queue[0], |s.mem|) && AllFit(Advance(s).queue, |s.mem|) && Done(s, k) == Done(Advance(s), k - 1)
  {
    var q := s.queue;
    assert q[0] in q && (forall j :: j in q[1..] ==> j in q) && forall j :: j in q[..k] ==> j in q;
    assert q[..k][0] == q[0] && q[..k][1..] == q[1..][..k - 1] && q[k..] == q[1..][k - 1..];
  }

  /** However far the engine has got, the outcome stays the same. */
  lemma {:induction false} EngineKeepsOutcome(s: System, k: nat)
    requires Sound(s) && k <= |s.queue|
    ensures Sound(Done(s, k)) && LinesKept(s.mem, Done(s, k).mem, s.cache) && Outcome(Done(s, k)) == Outcome(s)
    decreases k
  {
    if k == 0 {
      assert s.queue[..0] == [] && s.queue[0..] == s.queue;
    } else {
      OneDone(s);
      DoneStep(s, k);
      EngineKeepsOutcome(Advance(s), k - 1);
      KeptTwice(s.mem, Advance(s).mem, Done(s, k).mem, s.cache);
    }
  }

  lemma KeptTwice(m0: seq<Byte>, m1: seq<Byte>, m2: seq<Byte>, cache: map<nat, Line>)
    requires LinesKept(m0, m1, cache) && LinesKept(m1, m2, cache)
    ensures LinesKept(m0, m2, cache)
  {
  }

  function Without(cache: map<nat, Line>, hit: nat -> bool): map<nat, Line> {
    map l | l in cache && !hit(l) :: cache[l]
  }

  lemma WithoutSame(cache: map<nat, Line>, some: nat -> bool, same: nat -> bool)
    requires forall l :: some(l) <==> same(l)
    ensures Without(cache, some) == Without(cache, same)
  {
  }

  lemma WithoutNext(cache: map<nat, Line>, first: nat, next: nat)
    requires first <= next
    ensures Without(cache, Between(first, next)) - {next} == Without(cache, Between(first, next + 1))
    ensures Without(cache, Between(first, first)) == cache
  {
  }

  /** The lines in `hit` were written back and dropped while the engine did some of its jobs. */
  ghost predicate Flushed(s: System, t: System, hit: nat -> bool)
    requires Sound(s)
  {
    && Sound(t) && t.cache == Without(s.cache, hit) && LinesKept(s.mem, t.mem, t.cache)
    && |t.queue| <= |s.queue| && Outcome(t) == Outcome(s)
  }

  lemma FlushTwice(s: System, t: System, u: System, first: nat -> bool, second: nat -> bool, both: nat -> bool)
    requires Sound(s) && Flushed(s, t, first) && Flushed(t, u, second) && forall l :: both(l) <==> first(l) || second(l)
    ensures Flushed(s, u, both)
  {
  }

  /** `Flushed` only depends on which lines are hit. */
  lemma SameHits(s: System, t: System, some: nat -> bool, same: nat -> bool)
    requires Sound(s) && Flushed(s, t, some) && forall l :: some(l) <==> same(l)
    ensures Flushed(s, t, same)
  {
  }

  lemma FlushMore(s: System, t: System, u: System, done: set<nat>, l: nat)
    requires Sound(s) && Flushed(s, t, In(done)) && Flushed(t, u, Only(l))
    ensures Flushed(s, u, In(done + {l}))
  {
    FlushTwice(s, t, u, In(done), Only(l), In(done + {l}));
  }

  lemma FlushedEvery(s: System, t: System, done: set<nat>)
    requires Sound(s) && Flushed(s, t, In(done)) && s.cache.Keys == done
    ensures Flushed(s, t, All())
  {
    assert t.cache == Without(s.cache, All());
  }

  lemma WriteBackFlushes(s: System, mem': seq<Byte>, cache': map<nat, Line>, hit: nat -> bool)
    requires Sound(s) && WrittenBack(s.mem, s.cache, mem', cache', hit)
    ensures Flushed(s, System(mem', cache', s.queue), hit)
  {
    WriteBackKeepsView(s.mem, s.cache, mem', cache', hit);
    forall j | j in s.queue ensures Apart(cache', j) {
      assert Apart(s.cache, j);
    }
  }

  lemma EngineFlushesNothing(s: System, k: nat)
    requires Sound(s) && k <= |s.queue|
    ensures Flushed(s, Done(s, k), In({}))
  {
    EngineKeepsOutcome(s, k);
  }

  /** On an idle channel, flushing lines is writing them back and dropping them, and no more. */
  lemma IdleFlush(s: System, t: System, hit: nat -> bool)
    requires Sound(s) && Flushed(s, t, hit) && s.queue == []
    ensures t.queue == [] && WrittenBack(s.mem, s.cache, t.mem, t.cache, hit)
  {
    assert View(t.mem, t.cache) == View(s.mem, s.cache);
    forall a | 0 <= a < |s.mem| ensures t.mem[a] == if hit(a / LINE) then Load(s.mem, s.cache, a) else s.mem[a] {
      assert View(t.mem, t.cache)[a] == View(s.mem, s.cache)[a];
    }
  }

  // ---------------------------------------------------------------- what a discard loses

  /** The system with the lines of the range dropped and nothing else changed. */
  ghost function Dropped(s: System, sadr: nat, size: nat): System {
    s.(cache := Without(s.cache, Range(sadr, size)))
  }

  lemma DropKeepsSound(s: System, sadr: nat, size: nat)
    requires Sound(s)
    ensures Sound(Dropped(s, sadr, size))
  {
    forall j | j in s.queue ensures Apart(Dropped(s, sadr, size).cache, j) {
      assert Apart(s.cache, j);
    }
  }

  /** After flushing the source, dropping the destination's lines keeps the view outside the destination iff nothing dirty is lost. */
  lemma DropLosesIff(s: System, t: System, dst: nat, src: nat, n: nat)
    requires Sound(s) && Flushed(s, t, Range(src, n))
    ensures var u := Dropped(t, dst, n);
            && Coherent(u.mem, u.cache)
            && ((forall a :: 0 <= a < |s.mem| && !(dst <= a < dst + n) ==> View(u.mem, u.cache)[a] == View(t.mem, t.cache)[a])
                <==> NoDirtyLoss(s.mem, s.cache, dst, src, n))
  {
    var u := Dropped(t, dst, n);
    forall a | 0 <= a < |s.mem| && Touched(a / LINE, dst, n) && !Touched(a / LINE, src, n)
      ensures View(u.mem, u.cache)[a] == View(t.mem, t.cache)[a] <==> Load(s.mem, s.cache, a) == s.mem[a]
    {
      if a / LINE in s.cache { assert t.mem[a] == s.mem[a]; }
    }
    forall a | 0 <= a < |s.mem| && !(Touched(a / LINE, dst, n) && !Touched(a / LINE, src, n))
      ensures View(u.mem, u.cache)[a] == View(t.mem, t.cache)[a]
    {
    }
  }

  /** Both views agree on every byte that the job touches. */
  ghost predicate AgreeOn(v: seq<Byte>, w: seq<Byte>, j: Job)
    requires |v| == |w| && Fits(j, |v|)
  {
    && (forall a :: j.dst <= a < j.dst + j.len ==> v[a] == w[a])
    && (j.Copy? ==> forall a :: j.src <= a < j.src + j.len ==> v[a] == w[a])
  }

  lemma JobKeepsDifferences(v: seq<Byte>, w: seq<Byte>, j: Job)
    requires |v| == |w| && Fits(j, |v|) && AgreeOn(v, w, j)
    ensures forall a :: 0 <= a < |v| ==> (Apply(v, j)[a] == Apply(w, j)[a] <==> v[a] == w[a])
  {
    var x, y := Apply(v, j), Apply(w, j);
    forall a | 0 <= a < |v| ensures x[a] == y[a] <==> v[a] == w[a] {
      if j.dst <= a < j.dst + j.len {
        if j.Copy? { assert x[a] == v[j.src + (a - j.dst)] && y[a] == w[j.src + (a - j.dst)]; }
      } else {
        assert x[a] == v[a] && y[a] == w[a];
      }
    }
  }

  /** Jobs on bytes where two views agree leave them different exactly where they were. */
  lemma {:induction false} JobsKeepDifferences(v: seq<Byte>, w: seq<Byte>, q: seq<Job>)
    requires |v| == |w| && AllFit(q, |v|) && forall j :: j in q ==> AgreeOn(v, w, j)
    ensures forall a :: 0 <= a < |v| ==> (ApplyAll(v, q)[a] == ApplyAll(w, q)[a] <==> v[a] == w[a])
    decreases |q|
  {
    if q != [] {
      assert q[0] in q && forall j :: j in q[1..] ==> j in q;
      JobKeepsDifferences(v, w, q[0]);
      forall j | j in q[1..] ensures AgreeOn(Apply(v, q[0]), Apply(w, q[0]), j) {
        assert AgreeOn(v, w, j);
      }
      JobsKeepDifferences(Apply(v, q[0]), Apply(w, q[0]), q[1..]);
    }
  }

  lemma DropAgreesOnUncached(t: System, dst: nat, n: nat, j: Job)
    requires Sound(t) && Fits(j, |t.mem|) && Apart(t.cache, j) && Coherent(t.mem, Dropped(t, dst, n).cache)
    ensures AgreeOn(View(t.mem, t.cache), View(t.mem, Dropped(t, dst, n).cache), j)
  {
  }

  lemma AgreeingRange(v: seq<Byte>, w: seq<Byte>, lo: nat, n: nat)
    requires |v| == |w| && lo + n <= |v| && forall a :: lo <= a < lo + n ==> v[a] == w[a]
    ensures v[lo..lo + n] == w[lo..lo + n]
  {
  }

  /** The copy issued after a discard has the outcome it should have iff the discard kept the view outside the destination. */
  lemma CopyAfterDrop(t: System, dst: nat, src: nat, n: nat)
    requires Sound(t) && Fits(Copy(dst, src, n), |t.mem|) && Uncached(t.cache, src, n)
    requires Sound(Dropped(t, dst, n))
    ensures var u := Dropped(t, dst, n);
            Apply(Outcome(u), Copy(dst, src, n)) == Apply(Outcome(t), Copy(dst, src, n))
            <==> forall a :: 0 <= a < |t.mem| && !(dst <= a < dst + n) ==> View(u.mem, u.cache)[a] == View(t.mem, t.cache)[a]
  {
    var u := Dropped(t, dst, n);
    var v, w := View(t.mem, t.cache), View(u.mem, u.cache);
    forall j | j in t.queue ensures AgreeOn(v, w, j) {
      DropAgreesOnUncached(t, dst, n, j);
    }
    JobsKeepDifferences(v, w, t.queue);
    forall a | src <= a < src + n ensures Outcome(u)[a] == Outcome(t)[a] {
      assert v[a] == w[a];
    }
    AgreeingRange(Outcome(u), Outcome(t), src, n);
    CopyIff(Outcome(t), Outcome(u), dst, src, n);
  }

  /** Flush the source, drop the destination's lines, copy: the outcome is right iff nothing dirty was lost. */
  lemma DiscardedCopyIff(s: System, t: System, dst: nat, src: nat, n: nat)
    requires Sound(s) && Flushed(s, t, Range(src, n)) && Fits(Copy(dst, src, n), |s.mem|)
    ensures Sound(Dropped(t, dst, n))
    ensures Apply(Outcome(Dropped(t, dst, n)), Copy(dst, src, n)) == Apply(Outcome(s), Copy(dst, src, n))
            <==> NoDirtyLoss(s.mem, s.cache, dst, src, n)
  {
    DropKeepsSound(t, dst, n);
    DropLosesIff(s, t, dst, src, n);
    SourceUncached(t.cache, src, n);
    CopyAfterDrop(t, dst, src, n);
  }

  // ---------------------------------------------------------------- the hart and its channel

  class Machine {
    const ch: Channel
    var cache: map<nat, Line>

    constructor (ch: Channel)
      requires ch.Valid()
      ensures Valid() && this.ch == ch && cache == map[]
    {
      this.ch := ch;
      cache := map[];
    }

    ghost function Now(): System
      reads this, ch
    {
      System(ch.mem, cache, ch.queue)
    }

    /** The cache is coherent and outstanding jobs touch no cached line. */
    ghost predicate Valid()
      reads this, ch
    {
      ch.Valid() && Sound(Now())
    }

    ghost function CpuView(): (v: seq<Byte>)
      reads this, ch
      requires Valid()
    {
      View(ch.mem, cache)
    }

    /** The channel has done some of the jobs of s, and the cache is as it was. */
    ghost predicate Progressed(s: System)
      reads this, ch
    {
      ch.Valid() && ch.Advanced(s.mem, s.queue) && cache == s.cache
    }

    lemma ProgressIsDone(s: System)
      requires AllFit(s.queue, |s.mem|) && Progressed(s)
      ensures Now() == Done(s, |s.queue| - |ch.queue|)
    {
    }

    lemma ProgressKeepsOutcome(s: System)
      requires Sound(s) && Progressed(s)
      ensures Valid() && Outcome(Now()) == Outcome(s) && Flushed(s, Now(), In({}))
    {
      ProgressIsDone(s);
      EngineFlushesNothing(s, |s.queue| - |ch.queue|);
    }

    /** Between two instructions of the hart the engine finishes any number of jobs. */
    method Engine()
      requires Valid()
      modifies ch`queue, ch`mem, ch`donePtr, ch`finished
      ensures Valid() && Flushed(old(Now()), Now(), In({}))
    {
      ghost var s := Now();
      Proceed(s);
      ProgressKeepsOutcome(s);
    }

    method Proceed(ghost s: System)
      requires ch.Valid() && s == Now()
      modifies ch`queue, ch`mem, ch`donePtr, ch`finished
      ensures Progressed(s)
    {
      ch.StartsHere(s.mem, s.queue);
      ch.Engine(0, s.mem, s.queue);
    }

    /** One CFLUSH_D_L1 instruction on the line l. */
    method FlushLine(l: nat)
      requires Valid()
      modifies this`cache, ch`mem
      ensures Valid() && WrittenBack(old(ch.mem), old(cache), ch.mem, cache, Only(l))
      ensures Flushed(old(Now()), Now(), Only(l))
    {
      ghost var s := Now();
      if l in cache {
        FlushedLine(ch.mem, cache, l);
        if cache[l].dirty {
          ch.mem := ch.mem[..LINE * l] + cache[l].data + ch.mem[LINE * l + LINE..];
        } else {
          assert ch.mem == ch.mem[..LINE * l] + cache[l].data + ch.mem[LINE * l + LINE..];
        }
        cache := cache - {l};
      }
      WriteBackFlushes(s, ch.mem, cache, Only(l));
    }

    /** That instruction, with the engine at work behind it. */
    method FlushStep(l: nat)
      requires Valid()
      modifies this`cache, ch
      ensures Valid() && Flushed(old(Now()), Now(), Only(l))
    {
      ghost var s := Now();
      FlushLine(l);
      ghost var t := Now();
      Engine();
      FlushTwice(s, t, Now(), Only(l), In({}), Only(l));
    }

    /** `hwflush_dcache_all`. */
    method FlushAll()
      requires Valid()
      modifies this`cache, ch
      ensures Valid() && Flushed(old(Now()), Now(), All())
    {
      ghost var s := Now();
      var lines := cache.Keys;
      ghost var done: set<nat> := {};
      Engine();
      while lines != {}
        invariant Valid() && done + lines == s.cache.Keys
        invariant Flushed(s, Now(), In(done))
        decreases lines
      {
        var l :| l in lines;
        ghost var t := Now();
        FlushStep(l);
        FlushMore(s, t, Now(), done, l);
        done, lines := done + {l}, lines - {l};
      }
      FlushedEvery(s, Now(), done);
    }

    /** `hwflush_dcache_range`: the whole cache from DC_SIZE up, else line by line, the first one unconditionally. */
    method FlushRange(sadr: nat, size: nat)
      requires Valid()
      modifies this`cache, ch
      ensures Valid() && Flushed(old(Now()), Now(), Range(sadr, size))
      ensures old(ch.queue) == [] ==> WrittenBack(old(ch.mem), old(cache), ch.mem, cache, Range(sadr, size))
    {
      ghost var s := Now();
      if size >= DC_SIZE {
        FlushAll();
        SameHits(s, Now(), All(), Range(sadr, size));
      } else {
        var eadr, first := sadr + size, sadr / LINE;
        var next := FlushLines(first, eadr);
        SameHits(s, Now(), Between(first, next), Range(sadr, size));
      }
      if s.queue == [] { IdleFlush(s, Now(), Range(sadr, size)); }
    }

    /** The do-while loop of the flush, from line `first` on. */
    method FlushLines(first: nat, eadr: nat) returns (next: nat)
      requires Valid()
      modifies this`cache, ch
      ensures first < next && LINE * next >= eadr && (next == first + 1 || LINE * (next - 1) < eadr)
      ensures Valid() && Flushed(old(Now()), Now(), Between(first, next))
    {
      ghost var s := Now();
      FlushStep(first);
      next := first + 1;
      SameHits(s, Now(), Only(first), Between(first, next));
      while LINE * next < eadr
        invariant first < next && (next == first + 1 || LINE * (next - 1) < eadr)
        invariant Valid() && Flushed(s, Now(), Between(first, next))
      {
        ghost var t, a := Now(), next;
        FlushStep(next);
        next := next + 1;
        FlushTwice(s, t, Now(), Between(first, a), Only(a), Between(first, next));
      }
    }

    /** `hwdiscard_dcache_range`: the same lines, dropped without writing back, with the engine at work behind it. */
    method DiscardRange(sadr: nat, size: nat)
      requires Valid()
      modifies this`cache, ch
      ensures Valid() && cache == Without(old(cache), Range(sadr, size))
      ensures |ch.queue| <= |old(ch.queue)|
      ensures Sound(Dropped(old(Now()), sadr, size)) && Outcome(Now()) == Outcome(Dropped(old(Now()), sadr, size))
      ensures old(ch.queue) == [] ==> ch.mem == old(ch.mem)
    {
      ghost var s := Now();
      ch.StartsHere(s.mem, s.queue);
      DiscardTouched(sadr, size, s.mem, s.queue);
      DropKeepsSound(s, sadr, size);
      ProgressKeepsOutcome(Dropped(s, sadr, size));
      if s.queue == [] { assert s.queue[..0] == []; }
    }

    /** The two branches of the discard. */
    method DiscardTouched(sadr: nat, size: nat, ghost m: seq<Byte>, ghost q: seq<Job>)
      requires ch.Valid() && ch.Advanced(m, q)
      modifies this`cache, ch`queue, ch`mem, ch`donePtr, ch`finished
      ensures ch.Valid() && ch.Advanced(m, q) && |ch.queue| <= |old(ch.queue)|
      ensures cache == Without(old(cache), Range(sadr, size))
    {
      if size >= DC_SIZE {
        cache := map[];
      } else {
        ghost var c := cache;
        var first := sadr / LINE;
        var next := DiscardLines(first, sadr + size, m, q);
        WithoutSame(c, Between(first, next), Range(sadr, size));
      }
    }

    /** The do-while loop of the discard, from line `first` on. */
    method DiscardLines(first: nat, eadr: nat, ghost m: seq<Byte>, ghost q: seq<Job>) returns (next: nat)
      requires ch.Valid() && ch.Advanced(m, q)
      modifies this`cache, ch`queue, ch`mem, ch`donePtr, ch`finished
      ensures ch.Valid() && ch.Advanced(m, q) && |ch.queue| <= |old(ch.queue)|
      ensures first < next && LINE * next >= eadr && (next == first + 1 || LINE * (next - 1) < eadr)
      ensures cache == Without(old(cache), Between(first, next))
    {
      ghost var c := cache;
      WithoutNext(c, first, first);
      DiscardStep(first, m, q);
      next := first + 1;
      while LINE * next < eadr
        invariant first < next && (next == first + 1 || LINE * (next - 1) < eadr)
        invariant ch.Valid() && ch.Advanced(m, q) && |ch.queue| <= |old(ch.queue)|
        invariant cache == Without(c, Between(first, next))
      {
        WithoutNext(c, first, next);
        DiscardStep(next, m, q);
        next := next + 1;
      }
    }

    /** One CDISCARD_D_L1 instruction on the line l, with the engine at work behind it. */
    method DiscardStep(l: nat, ghost m: seq<Byte>, ghost q: seq<Job>)
      requires ch.Valid() && ch.Advanced(m, q)
      modifies this`cache, ch`queue, ch`mem, ch`donePtr, ch`finished
      ensures ch.Valid() && ch.Advanced(m, q) && |ch.queue| <= |old(ch.queue)|
      ensures cache == old(cache) - {l}
    {
      cache := cache - {l};
      ch.Engine(0, m, q);
    }

    /** The copy both routines end with, on ranges that are no longer cached. */
    method CopyUncached(dst: nat, src: nat, n: nat)
      requires Valid() && Fits(Copy(dst, src, n), |ch.mem|) && Apart(cache, Copy(dst, src, n))
      modifies ch
      ensures Valid() && |ch.mem| == |old(ch.mem)|
      ensures Outcome(Now()) == Apply(old(Outcome(Now())), Copy(dst, src, n))
      ensures |old(ch.queue)| + 1 < ch.M ==> ch.queue == []
    {
      var j := Copy(dst, src, n);
      ghost var s := Now().(queue := ch.queue + [j]);
      PushJob(View(ch.mem, cache), ch.queue, j);
      ch.MemCpy(dst, src, n);
      ProgressKeepsOutcome(s);
    }

    /**
     * `BDmaMemCpy_rtos_flush`: for the hart, an ordinary copy after the jobs already outstanding, whatever was cached and
     * however the ranges are aligned; with room on the channel it is complete on return.
     */
    method MemCpyFlush(dst: nat, src: nat, n: nat)
      requires Valid() && Fits(Copy(dst, src, n), |ch.mem|)
      modifies this, ch
      ensures Valid() && |ch.mem| == |old(ch.mem)|
      ensures Outcome(Now()) == Apply(old(Outcome(Now())), Copy(dst, src, n))
      ensures |old(ch.queue)| + 1 < ch.M ==>
                ch.queue == [] && CpuView() == Apply(ApplyAll(old(CpuView()), old(ch.queue)), Copy(dst, src, n))
      ensures Copied(old(Outcome(Now())), Outcome(Now()), dst, src, n)
      ensures old(ch.queue) == [] && ch.M > 1 ==> Copied(old(CpuView()), CpuView(), dst, src, n)
    {
      ghost var s := Now();
      FlushRange(src, n);
      FlushRange(dst, n);
      BothUncached(cache, dst, src, n);
      CopyUncached(dst, src, n);
      JobBytes(Outcome(s), Outcome(Now()), Copy(dst, src, n));
    }

    /** `BDmaMemCpy_rtos_discard_flush`: the same exactly when the discard drops no dirty byte outside the destination. */
    method MemCpyDiscardFlush(dst: nat, src: nat, n: nat)
      requires Valid() && Fits(Copy(dst, src, n), |ch.mem|)
      modifies this, ch
      ensures Valid() && |ch.mem| == |old(ch.mem)|
      ensures Outcome(Now()) == Apply(old(Outcome(Now())), Copy(dst, src, n)) <==> old(NoDirtyLoss(ch.mem, cache, dst, src, n))
      ensures |old(ch.queue)| + 1 < ch.M ==> ch.queue == [] && CpuView() == Outcome(Now())
      ensures Copied(old(Outcome(Now())), Outcome(Now()), dst, src, n) <==> old(NoDirtyLoss(ch.mem, cache, dst, src, n))
      ensures DiscardSafe(|ch.mem|, dst, src, n) ==> Copied(old(Outcome(Now())), Outcome(Now()), dst, src, n)
      ensures old(ch.queue) == [] && ch.M > 1 ==>
                (Copied(old(CpuView()), CpuView(), dst, src, n) <==> old(NoDirtyLoss(ch.mem, cache, dst, src, n)))
    {
      if DiscardSafe(|ch.mem|, dst, src, n) { SafeNow(Now(), dst, src, n); }
      ghost var s := Now();
      FlushRange(src, n);
      DiscardedCopyIff(s, Now(), dst, src, n);
      DiscardAndCopy(dst, src, n);
      JobBytes(Outcome(s), Outcome(Now()), Copy(dst, src, n));
    }

    /** The rest of that call, once the source is flushed. */
    method DiscardAndCopy(dst: nat, src: nat, n: nat)
      requires Valid() && Fits(Copy(dst, src, n), |ch.mem|) && forall l :: l in cache ==> !Touched(l, src, n)
      modifies this, ch
      ensures Valid() && |ch.mem| == |old(ch.mem)| && Sound(Dropped(old(Now()), dst, n))
      ensures Outcome(Now()) == Apply(Outcome(Dropped(old(Now()), dst, n)), Copy(dst, src, n))
      ensures |old(ch.queue)| + 1 < ch.M ==> ch.queue == []
    {
      DiscardRange(dst, n);
      BothUncached(cache, dst, src, n);
      CopyUncached(dst, src, n);
    }
  }

  lemma SafeNow(s: System, dst: nat, src: nat, n: nat)
    requires Sound(s) && Fits(Copy(dst, src, n), |s.mem|) && DiscardSafe(|s.mem|, dst, src, n)
    ensures NoDirtyLoss(s.mem, s.cache, dst, src, n)
  {
    SafeArguments(s.mem, dst, src, n);
  }

  lemma SourceUncached(cache: map<nat, Line>, src: nat, n: nat)
    requires forall l :: l in cache ==> !Touched(l, src, n)
    ensures Uncached(cache, src, n)
  {
  }

  lemma BothUncached(cache: map<nat, Line>, dst: nat, src: nat, n: nat)
    requires forall l :: l in cache ==> !Touched(l, src, n) && !Touched(l, dst, n)
    ensures Uncached(cache, dst, n) && Uncached(cache, src, n)
  {
  }

  lemma FlushedLine(mem: seq<Byte>, cache: map<nat, Line>, l: nat)
    requires Coherent(mem, cache) && l in cache
    ensures WrittenBack(mem, cache, mem[..LINE * l] + cache[l].data + mem[LINE * l + LINE..], cache - {l}, Only(l))
  {
  }
}
